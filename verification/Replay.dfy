/** The replication protocol: a client upserts by id whatever the journal hands it above its cursor,
    page by page, while every writer keeps writing. */
module Replay {
  import opened Text
  import opened Rows
  import opened Journal
  import opened Readers
  import opened Tombstones
  import Cleared

  // ── journal_rows ─────────────────────────────────────────────────────────

  predicate IsPending(m: Message, after: nat, cleared: Option<Time>) {
    m.revision > after && VisibleAt(m, cleared)
  }

  function Pending(rows: seq<Message>, after: nat, cleared: Option<Time>): seq<Message> {
    if rows == [] then []
    else (if IsPending(rows[0], after, cleared) then [rows[0]] else []) + Pending(rows[1..], after, cleared)
  }

  function InsertByRevision(m: Message, rows: seq<Message>): seq<Message> {
    if rows == [] || m.revision <= rows[0].revision then [m] + rows
    else [rows[0]] + InsertByRevision(m, rows[1..])
  }

  function SortByRevision(rows: seq<Message>): seq<Message> {
    if rows == [] then [] else InsertByRevision(rows[0], SortByRevision(rows[1..]))
  }

  /** One page of the catch-up: oldest revisions first, at most `limit` of them. */
  function JournalRows(c: Conversation, after: nat, limit: nat, cleared: Option<Time>): seq<Message> {
    var rows := SortByRevision(Pending(c.messages, after, cleared));
    if |rows| <= limit then rows else rows[..limit]
  }

  ghost predicate ByRevision(rows: seq<Message>) {
    forall i, j | 0 <= i < j < |rows| :: rows[i].revision <= rows[j].revision
  }

  lemma {:induction false} PendingIsExact(rows: seq<Message>, after: nat, cleared: Option<Time>, m: Message)
    ensures m in Pending(rows, after, cleared) <==> m in rows && IsPending(m, after, cleared)
  {
    if rows != [] {
      PendingIsExact(rows[1..], after, cleared, m);
      assert rows == [rows[0]] + rows[1..];
    }
  }

  lemma {:induction false} InsertKeepsOrder(m: Message, rows: seq<Message>)
    requires ByRevision(rows)
    ensures ByRevision(InsertByRevision(m, rows))
    ensures forall x :: x in InsertByRevision(m, rows) <==> x == m || x in rows
  {
    if rows != [] && m.revision > rows[0].revision {
      var rest := rows[1..];
      InsertKeepsOrder(m, rest);
      assert rows == [rows[0]] + rest;
      var out := InsertByRevision(m, rest);
      assert forall x | x in out :: rows[0].revision <= x.revision;
      assert forall j | 0 < j < 1 + |out| :: ([rows[0]] + out)[j] == out[j - 1] && out[j - 1] in out;
    }
  }

  lemma {:induction false} SortIsSorted(rows: seq<Message>)
    ensures ByRevision(SortByRevision(rows))
    ensures forall x :: x in SortByRevision(rows) <==> x in rows
  {
    if rows != [] {
      SortIsSorted(rows[1..]);
      InsertKeepsOrder(rows[0], SortByRevision(rows[1..]));
      assert rows == [rows[0]] + rows[1..];
    }
  }

  /** A page holds pending rows only, in order. */
  lemma PageIsPending(c: Conversation, after: nat, limit: nat, cleared: Option<Time>, m: Message)
    ensures ByRevision(JournalRows(c, after, limit, cleared))
    ensures m in JournalRows(c, after, limit, cleared) ==> m in c.messages && IsPending(m, after, cleared)
  {
    SortIsSorted(Pending(c.messages, after, cleared));
    PendingIsExact(c.messages, after, cleared, m);
  }

  /** ... and no pending row is skipped: what is not above the page's end is in it, and everything is in a
      page that is not full. */
  lemma PageSkipsNothing(c: Conversation, after: nat, limit: nat, cleared: Option<Time>, m: Message)
    requires Inv(c) && limit > 0 && m in c.messages
    requires m.revision > after && (cleared.None? || m.createdAt > cleared.value)
    ensures var page := JournalRows(c, after, limit, cleared);
      && page != [] && |page| <= limit
      && (m.revision <= page[|page| - 1].revision || |page| < limit ==> m in page)
  {
    var rows := SortByRevision(Pending(c.messages, after, cleared));
    SortIsSorted(Pending(c.messages, after, cleared));
    PendingIsExact(c.messages, after, cleared, m);
    var page := JournalRows(c, after, limit, cleared);
    var j :| 0 <= j < |rows| && rows[j] == m;
    if j >= |page| {
      var end := page[|page| - 1];
      assert end == rows[|page| - 1] && end in rows;
      assert end.revision <= m.revision;
      PendingIsExact(c.messages, after, cleared, end);
      SameRevisionSameRow(c, end, m);
    }
  }

  lemma SameRevisionSameRow(c: Conversation, a: Message, b: Message)
    requires Inv(c) && a in c.messages && b in c.messages
    ensures a.revision == b.revision ==> a == b
    ensures a.id == b.id ==> a == b
  {
    var i :| 0 <= i < |c.messages| && c.messages[i] == a;
    var j :| 0 <= j < |c.messages| && c.messages[j] == b;
  }

  // ── The client ───────────────────────────────────────────────────────────

  datatype Client = Client(rows: map<MsgId, Payload>, cursor: nat)

  function Upsert(rows: map<MsgId, Payload>, page: seq<Message>): map<MsgId, Payload> {
    if page == [] then rows
    else
      var n := |page| - 1;
      Upsert(rows, page[..n])[page[n].id := MessagePayload(page[n])]
  }

  /** Upsert a page by id and remember the last revision as the resume cursor. */
  function Pull(client: Client, c: Conversation, limit: nat, cleared: Option<Time>): Client {
    var page := JournalRows(c, client.cursor, limit, cleared);
    if page == [] then client else Client(Upsert(client.rows, page), page[|page| - 1].revision)
  }

  /** Upsert a pushed frame and remember its number; what the cursor has passed is dropped. */
  function Take(client: Client, frame: Payload): Client {
    if frame.revision <= client.cursor then client else Client(client.rows[frame.id := frame], frame.revision)
  }

  ghost predicate OneRowPerId(page: seq<Message>) {
    forall a, b | a in page && b in page :: a.id == b.id ==> a == b
  }

  lemma {:induction false} UpsertWrites(rows: map<MsgId, Payload>, page: seq<Message>, id: MsgId)
    requires OneRowPerId(page)
    ensures forall m | m in page && m.id == id ::
      id in Upsert(rows, page) && Upsert(rows, page)[id] == MessagePayload(m)
    ensures (forall m | m in page :: m.id != id) ==>
      (id in Upsert(rows, page) <==> id in rows) && (id in rows ==> Upsert(rows, page)[id] == rows[id])
  {
    if page != [] {
      var n := |page| - 1;
      assert page == page[..n] + [page[n]];
      UpsertWrites(rows, page[..n], id);
    }
  }

  // ── Agreement ────────────────────────────────────────────────────────────

  /** What convergence covers. A merge rewrites authors without a new revision, so a run with
      merges is compared without them. */
  function Shown(p: Payload, signed: bool): Payload {
    if signed then p else p.(sender := None)
  }

  /** The row a client keeps is this message, column by column: its place, its revision, its words and
      attachments while it is live and none once it is deleted, and its stamps. */
  predicate ShowsRow(p: Payload, m: Message, signed: bool) {
    && p.id == m.id && p.number == m.number && p.revision == m.revision && p.kind == m.kind
    && p.replyTo == m.replyTo && p.createdAt == m.createdAt
    && p.clientId == (if m.clientId == "" then None else Some(m.clientId))
    && p.editedAt == m.editedAt && (p.edited <==> m.editedAt.Some?)
    && p.deletedAt == m.deletedAt && (p.deleted <==> m.deletedAt.Some?)
    && p.body == (if m.deletedAt.Some? then "" else m.body)
    && p.attachments == (if m.deletedAt.Some? then [] else m.attachments)
    && (signed ==> p.sender == m.sender)
  }

  /** The wire shape of a row shows that row, and two shapes show one row only if they are alike. */
  lemma PayloadShowsItsRow(p: Payload, m: Message, signed: bool)
    ensures ShowsRow(MessagePayload(m), m, signed)
    ensures ShowsRow(p, m, signed) <==> Shown(p, signed) == Shown(MessagePayload(m), signed)
  {
  }

  ghost predicate Holds(client: Client, m: Message, signed: bool) {
    m.id in client.rows && ShowsRow(client.rows[m.id], m, signed)
  }

  /** The client holds exactly the server's content of every row at or below its cursor that its
      reader is served, and knows no row that is not in the thread. */
  ghost predicate Agrees(client: Client, c: Conversation, cleared: Option<Time>, signed: bool) {
    && client.cursor <= c.lastSeq
    && (forall i | 0 <= i < |c.messages| && c.messages[i].revision <= client.cursor
          && VisibleAt(c.messages[i], cleared) :: Holds(client, c.messages[i], signed))
    && (forall id | id in client.rows :: IndexOf(c.messages, id) < |c.messages|)
  }

  lemma RewriteHitsOneRow(c: Conversation, id: MsgId, body: string, at: Time, i: nat)
    requires i < |c.messages|
    ensures var m' := EditLocked(c, id, body, at).messages[i];
      m' == c.messages[i] || m'.revision == c.lastSeq + 1
    ensures var m' := DeleteLocked(c, id, at).messages[i];
      m' == c.messages[i] || m'.revision == c.lastSeq + 1
  {
  }

  lemma UnstampedRowStays(c: Conversation, op: Op, i: nat)
    requires !op.Renaming? && !op.Erasing? && i < |c.messages| && i < |Apply(c, op).messages|
    ensures Apply(c, op).messages[i] == c.messages[i] || Apply(c, op).messages[i].revision == c.lastSeq + 1
  {
    match op {
      case Editing(copy, editor, text, window, at) => RewriteHitsOneRow(c, copy.id, text, at, i);
      case Deleting(copy, actor, at) => RewriteHitsOneRow(c, copy.id, "", at, i);
      case _ =>
    }
  }

  lemma AuthorsStay(c: Conversation, op: Op, i: nat)
    requires Inv(c) && !op.Renaming? && i < |c.messages| && i < |Apply(c, op).messages|
    ensures Apply(c, op).messages[i].revision == c.messages[i].revision ==> Apply(c, op).messages[i] == c.messages[i]
  {
    if op.Erasing? {
      ErasedRowMoves(c, op.user, op.at, i);
    } else {
      UnstampedRowStays(c, op, i);
    }
  }

  lemma RowStays(c: Conversation, op: Op, i: nat, cursor: nat, signed: bool)
    requires Inv(c) && Admissible(c, op) && (signed ==> !op.Renaming?) && cursor <= c.lastSeq
    requires i < |Apply(c, op).messages| && Apply(c, op).messages[i].revision <= cursor
    ensures i < |c.messages| && c.messages[i].revision <= cursor
    ensures var m, m' := c.messages[i], Apply(c, op).messages[i];
      && m'.id == m.id && m'.createdAt == m.createdAt && m'.revision == m.revision
      && forall p :: ShowsRow(p, m, signed) <==> ShowsRow(p, m', signed)
  {
    StepKeepsInv(c, op);
    if i < |c.messages| {
      assert RowMoves(c.messages[i], Apply(c, op).messages[i], c.lastSeq);
      if signed {
        AuthorsStay(c, op, i);
      }
    }
  }

  lemma KnownIdStays(c: Conversation, c': Conversation, id: MsgId)
    requires Grows(c, c') && IndexOf(c.messages, id) < |c.messages|
    ensures IndexOf(c'.messages, id) < |c'.messages|
  {
    var i := IndexOf(c.messages, id);
    assert RowMoves(c.messages[i], c'.messages[i], c.lastSeq);
  }

  /** No writer breaks the agreement: what it changes moves above every cursor. */
  lemma WriteKeepsAgreement(
    client: Client, c: Conversation, op: Op, cleared: Option<Time>, cleared': Option<Time>, signed: bool)
    requires Inv(c) && Admissible(c, op) && (signed ==> !op.Renaming?)
    requires Agrees(client, c, cleared, signed) && Cleared.MovesForward(cleared, cleared')
    ensures Agrees(client, Apply(c, op), cleared', signed)
  {
    var c' := Apply(c, op);
    StepKeepsInv(c, op);
    forall i | 0 <= i < |c'.messages| && c'.messages[i].revision <= client.cursor && VisibleAt(c'.messages[i], cleared')
      ensures Holds(client, c'.messages[i], signed)
    {
      RowStays(c, op, i, client.cursor, signed);
      assert Holds(client, c.messages[i], signed);
    }
    forall id | id in client.rows
      ensures IndexOf(c'.messages, id) < |c'.messages|
    {
      KnownIdStays(c, c', id);
    }
  }

  lemma PageRowsAreOneEach(c: Conversation, after: nat, limit: nat, cleared: Option<Time>)
    requires Inv(c)
    ensures OneRowPerId(JournalRows(c, after, limit, cleared))
  {
    var page := JournalRows(c, after, limit, cleared);
    forall a, b | a in page && b in page
      ensures a.id == b.id ==> a == b
    {
      PageIsPending(c, after, limit, cleared, a);
      PageIsPending(c, after, limit, cleared, b);
      SameRevisionSameRow(c, a, b);
    }
  }

  /** A page that is not empty moves the cursor forward, never past the counter. */
  lemma PageAdvancesCursor(client: Client, c: Conversation, limit: nat, cleared: Option<Time>)
    requires Inv(c) && client.cursor <= c.lastSeq
    ensures client.cursor <= Pull(client, c, limit, cleared).cursor <= c.lastSeq
    ensures JournalRows(c, client.cursor, limit, cleared) != [] ==>
      client.cursor < Pull(client, c, limit, cleared).cursor
  {
    var page := JournalRows(c, client.cursor, limit, cleared);
    if page != [] {
      PageIsPending(c, client.cursor, limit, cleared, page[|page| - 1]);
    }
  }

  lemma PulledRowIsHeld(
    client: Client, c: Conversation, limit: nat, cleared: Option<Time>, m: Message, signed: bool)
    requires Inv(c) && limit > 0 && m in c.messages && VisibleAt(m, cleared)
    requires m.revision <= client.cursor ==> Holds(client, m, signed)
    requires m.revision <= Pull(client, c, limit, cleared).cursor
    ensures Holds(Pull(client, c, limit, cleared), m, signed)
  {
    var page := JournalRows(c, client.cursor, limit, cleared);
    if page != [] {
      PageRowsAreOneEach(c, client.cursor, limit, cleared);
      UpsertWrites(client.rows, page, m.id);
      if m.revision > client.cursor {
        PageSkipsNothing(c, client.cursor, limit, cleared, m);
      } else if x :| x in page && x.id == m.id {
        PageIsPending(c, client.cursor, limit, cleared, x);
        SameRevisionSameRow(c, x, m);
      }
    }
  }

  lemma PulledIdIsKnown(client: Client, c: Conversation, limit: nat, cleared: Option<Time>, id: MsgId)
    requires Inv(c) && id in Pull(client, c, limit, cleared).rows
    requires id in client.rows ==> IndexOf(c.messages, id) < |c.messages|
    ensures IndexOf(c.messages, id) < |c.messages|
  {
    var page := JournalRows(c, client.cursor, limit, cleared);
    PageRowsAreOneEach(c, client.cursor, limit, cleared);
    UpsertWrites(client.rows, page, id);
    if x :| x in page && x.id == id {
      PageIsPending(c, client.cursor, limit, cleared, x);
    }
  }

  /** Pulling a page keeps the agreement. */
  lemma PullKeepsAgreement(client: Client, c: Conversation, limit: nat, cleared: Option<Time>, signed: bool)
    requires Inv(c) && limit > 0 && Agrees(client, c, cleared, signed)
    ensures Agrees(Pull(client, c, limit, cleared), c, cleared, signed)
  {
    PageAdvancesCursor(client, c, limit, cleared);
    var client' := Pull(client, c, limit, cleared);
    forall i | 0 <= i < |c.messages| && c.messages[i].revision <= client'.cursor && VisibleAt(c.messages[i], cleared)
      ensures Holds(client', c.messages[i], signed)
    {
      PulledRowIsHeld(client, c, limit, cleared, c.messages[i], signed);
    }
    forall id | id in client'.rows
      ensures IndexOf(c.messages, id) < |c.messages|
    {
      PulledIdIsKnown(client, c, limit, cleared, id);
    }
  }

  // ── Live frames ──────────────────────────────────────────────────────────

  /** The frame names a row of the thread and shows it as it is, or the row has moved on since. */
  ghost predicate FrameFits(frame: Payload, c: Conversation, cleared: Option<Time>, signed: bool) {
    && frame.revision <= c.lastSeq && IndexOf(c.messages, frame.id) < |c.messages|
    && forall i | 0 <= i < |c.messages| && VisibleAt(c.messages[i], cleared)
         && (c.messages[i].id == frame.id || c.messages[i].revision == frame.revision) ::
         || c.messages[i].revision > frame.revision
         || ShowsRow(frame, c.messages[i], signed)
  }

  /** No row the reader may see lies strictly between these two numbers. */
  ghost predicate NoneBetween(c: Conversation, cleared: Option<Time>, low: nat, high: nat) {
    forall i | 0 <= i < |c.messages| && VisibleAt(c.messages[i], cleared) ::
      !(low < c.messages[i].revision < high)
  }

  /** What the client would lose nothing by: it has seen the frame's number, or the frame fits and
      jumps over nothing. */
  ghost predicate Takes(client: Client, frame: Payload, c: Conversation, cleared: Option<Time>, signed: bool) {
    || frame.revision <= client.cursor
    || (FrameFits(frame, c, cleared, signed) && NoneBetween(c, cleared, client.cursor, frame.revision))
  }

  /** The client holds nothing newer than its cursor. */
  ghost predicate NotAhead(client: Client) {
    forall id | id in client.rows :: client.rows[id].revision <= client.cursor
  }

  lemma FrameKeepsAgreement(client: Client, frame: Payload, c: Conversation, cleared: Option<Time>, signed: bool)
    requires Agrees(client, c, cleared, signed) && Takes(client, frame, c, cleared, signed)
    ensures Agrees(Take(client, frame), c, cleared, signed)
  {
    var client' := Take(client, frame);
    forall i | 0 <= i < |c.messages| && c.messages[i].revision <= client'.cursor && VisibleAt(c.messages[i], cleared)
      ensures Holds(client', c.messages[i], signed)
    {
      assert c.messages[i].revision <= client.cursor ==> Holds(client, c.messages[i], signed);
    }
  }

  lemma AgreementNeedsTheFrame(client: Client, frame: Payload, c: Conversation, cleared: Option<Time>, signed: bool)
    requires Agrees(client, c, cleared, signed) && NotAhead(client)
    requires Agrees(Take(client, frame), c, cleared, signed)
    ensures Takes(client, frame, c, cleared, signed)
  {
    if frame.revision > client.cursor {
      var client' := Take(client, frame);
      assert frame.id in client'.rows;
      forall i | 0 <= i < |c.messages| && VisibleAt(c.messages[i], cleared)
        ensures c.messages[i].id == frame.id || c.messages[i].revision == frame.revision ==>
          c.messages[i].revision > frame.revision ||
            ShowsRow(frame, c.messages[i], signed)
        ensures !(client.cursor < c.messages[i].revision < frame.revision)
      {
        if c.messages[i].revision <= frame.revision {
          assert Holds(client', c.messages[i], signed);
        }
      }
    }
  }

  /** A client that takes pushed frames and moves its cursor by them keeps agreeing exactly while each
      frame it has not passed yet shows its row as stored, unless the row has moved on, and jumps
      over no row its reader may see. */
  lemma FrameKeepsAgreementIff(client: Client, frame: Payload, c: Conversation, cleared: Option<Time>, signed: bool)
    requires Agrees(client, c, cleared, signed) && NotAhead(client)
    ensures Agrees(Take(client, frame), c, cleared, signed) <==> Takes(client, frame, c, cleared, signed)
  {
    if Takes(client, frame, c, cleared, signed) {
      FrameKeepsAgreement(client, frame, c, cleared, signed);
    } else if Agrees(Take(client, frame), c, cleared, signed) {
      AgreementNeedsTheFrame(client, frame, c, cleared, signed);
    }
  }

  // ── Sessions ─────────────────────────────────────────────────────────────

  datatype Event = Write(op: Op) | Fetch(limit: nat) | Push(frame: Payload)

  /** The mark a page is bounded by: the reader's own, or none for a client that reads as nobody. */
  function Bound(c: Conversation, reader: Option<UserId>): Option<Time> {
    if reader.Some? then MarkOf(c, reader.value) else None
  }

  ghost predicate Seated(c: Conversation, reader: Option<UserId>) {
    reader.Some? ==> reader.value in c.members
  }

  /** The thread and one client after these events; each page is bounded by the reader's mark at that
      moment, while a frame reaches every subscriber alike. */
  function Session(c: Conversation, client: Client, reader: Option<UserId>, events: seq<Event>):
    (Conversation, Client)
  {
    if events == [] then (c, client)
    else
      var n := |events| - 1;
      var (c', client') := Session(c, client, reader, events[..n]);
      match events[n]
      case Write(op) => (Apply(c', op), client')
      case Fetch(limit) => (c', Pull(client', c', limit, Bound(c', reader)))
      case Push(frame) => (c', Take(client', frame))
  }

  ghost predicate Allowed(c: Conversation, client: Client, reader: Option<UserId>, signed: bool, event: Event) {
    match event
    case Write(op) => Admissible(c, op) && !(op.Renaming? && (signed || Some(op.from) == reader))
    case Fetch(limit) => limit > 0
    case Push(frame) => Takes(client, frame, c, Bound(c, reader), signed)
  }

  ghost predicate AllowedNow(state: (Conversation, Client), reader: Option<UserId>, signed: bool, event: Event) {
    Allowed(state.0, state.1, reader, signed, event)
  }

  ghost predicate AllAllowed(
    c: Conversation, client: Client, reader: Option<UserId>, signed: bool, events: seq<Event>)
  {
    forall i | 0 <= i < |events| :: AllowedNow(Session(c, client, reader, events[..i]), reader, signed, events[i])
  }

  lemma AllowedPrefix(c: Conversation, client: Client, reader: Option<UserId>, signed: bool, events: seq<Event>)
    requires events != [] && AllAllowed(c, client, reader, signed, events)
    ensures var n := |events| - 1;
      && AllAllowed(c, client, reader, signed, events[..n])
      && AllowedNow(Session(c, client, reader, events[..n]), reader, signed, events[n])
  {
    var n := |events| - 1;
    forall i | 0 <= i < n
      ensures AllowedNow(Session(c, client, reader, events[..n][..i]), reader, signed, events[..n][i])
    {
      assert events[..n][..i] == events[..i];
    }
  }

  lemma BoundMovesForward(c: Conversation, op: Op, reader: Option<UserId>)
    requires Admissible(c, op) && Seated(c, reader) && !(op.Renaming? && Some(op.from) == reader)
    ensures Seated(Apply(c, op), reader)
    ensures Cleared.MovesForward(Bound(c, reader), Bound(Apply(c, op), reader))
  {
    if reader.Some? {
      Cleared.MarkNeverMovesBack(c, op, reader.value);
    }
  }

  lemma EventKeepsAgreement(c: Conversation, client: Client, reader: Option<UserId>, signed: bool, event: Event)
    requires Inv(c) && Seated(c, reader) && Agrees(client, c, Bound(c, reader), signed)
    requires Allowed(c, client, reader, signed, event)
    ensures var (c', client') := match event
        case Write(op) => (Apply(c, op), client)
        case Fetch(limit) => (c, Pull(client, c, limit, Bound(c, reader)))
        case Push(frame) => (c, Take(client, frame));
      Inv(c') && Seated(c', reader) && Agrees(client', c', Bound(c', reader), signed)
  {
    match event {
      case Write(op) =>
        StepKeepsInv(c, op);
        BoundMovesForward(c, op, reader);
        WriteKeepsAgreement(client, c, op, Bound(c, reader), Bound(Apply(c, op), reader), signed);
      case Fetch(limit) =>
        PullKeepsAgreement(client, c, limit, Bound(c, reader), signed);
      case Push(frame) =>
        FrameKeepsAgreement(client, frame, c, Bound(c, reader), signed);
    }
  }

  lemma {:induction false} SessionKeepsAgreement(
    c: Conversation, client: Client, reader: Option<UserId>, signed: bool, events: seq<Event>)
    requires Inv(c) && Seated(c, reader) && Agrees(client, c, Bound(c, reader), signed)
    requires AllAllowed(c, client, reader, signed, events)
    ensures var (c', client') := Session(c, client, reader, events);
      Inv(c') && Seated(c', reader) && Agrees(client', c', Bound(c', reader), signed)
  {
    if events != [] {
      var n := |events| - 1;
      AllowedPrefix(c, client, reader, signed, events);
      SessionKeepsAgreement(c, client, reader, signed, events[..n]);
      var (c1, client1) := Session(c, client, reader, events[..n]);
      EventKeepsAgreement(c1, client1, reader, signed, events[n]);
    }
  }

  /** Replay converges: whatever is posted, edited, deleted, erased, folded in, merged, left or
      cleared between pages of whatever size and frames that fit, the client keeps agreeing with the
      server on everything at or below its cursor, and holds it in thread order. */
  lemma ReplayConverges(
    c: Conversation, client: Client, reader: Option<UserId>, signed: bool, events: seq<Event>)
    requires Inv(c) && Seated(c, reader) && Agrees(client, c, Bound(c, reader), signed)
    requires AllAllowed(c, client, reader, signed, events)
    ensures var (c', client') := Session(c, client, reader, events);
      && Inv(c') && Seated(c', reader) && Agrees(client', c', Bound(c', reader), signed)
      && InThreadOrder(client', c', Bound(c', reader))
  {
    SessionKeepsAgreement(c, client, reader, signed, events);
    var (c', client') := Session(c, client, reader, events);
    AgreementIsInOrder(client', c', Bound(c', reader), signed);
  }

  /** Rows the client holds of the thread, put in the order of their places, are in thread order. */
  ghost predicate InThreadOrder(client: Client, c: Conversation, cleared: Option<Time>) {
    forall i, j | 0 <= i < j < |c.messages|
      && c.messages[i].revision <= client.cursor && VisibleAt(c.messages[i], cleared)
      && c.messages[j].revision <= client.cursor && VisibleAt(c.messages[j], cleared) ::
      && c.messages[i].id in client.rows && c.messages[j].id in client.rows
      && client.rows[c.messages[i].id].number < client.rows[c.messages[j].id].number
  }

  lemma AgreementIsInOrder(client: Client, c: Conversation, cleared: Option<Time>, signed: bool)
    requires Inv(c) && Agrees(client, c, cleared, signed)
    ensures InThreadOrder(client, c, cleared)
  {
    forall i, j | 0 <= i < j < |c.messages|
      && c.messages[i].revision <= client.cursor && VisibleAt(c.messages[i], cleared)
      && c.messages[j].revision <= client.cursor && VisibleAt(c.messages[j], cleared)
      ensures c.messages[i].id in client.rows && c.messages[j].id in client.rows
      ensures client.rows[c.messages[i].id].number < client.rows[c.messages[j].id].number
    {
      assert Holds(client, c.messages[i], signed) && Holds(client, c.messages[j], signed);
    }
  }

  /** A client that gets an empty page holds the whole thread its reader is served, in its order. */
  lemma CaughtUpHoldsTheThread(
    client: Client, c: Conversation, limit: nat, cleared: Option<Time>, signed: bool)
    requires Inv(c) && limit > 0 && Agrees(client, c, cleared, signed)
    requires JournalRows(c, client.cursor, limit, cleared) == []
    ensures forall m | m in c.messages && (cleared.None? || m.createdAt > cleared.value) :: Holds(client, m, signed)
    ensures forall i, j | 0 <= i < j < |c.messages|
      && VisibleAt(c.messages[i], cleared) && VisibleAt(c.messages[j], cleared) ::
      && c.messages[i].id in client.rows && c.messages[j].id in client.rows
      && client.rows[c.messages[i].id].number < client.rows[c.messages[j].id].number
    ensures forall id | id in client.rows :: exists m :: m in c.messages && m.id == id
  {
    forall m | m in c.messages && VisibleAt(m, cleared)
      ensures Holds(client, m, signed)
    {
      if m.revision > client.cursor {
        PageSkipsNothing(c, client.cursor, limit, cleared, m);
      }
    }
    forall id | id in client.rows
      ensures exists m :: m in c.messages && m.id == id
    {
      assert c.messages[IndexOf(c.messages, id)] in c.messages;
    }
  }

  // ── Draining the journal ─────────────────────────────────────────────────

  /** Pull until a page comes back empty. */
  ghost function Drain(client: Client, c: Conversation, limit: nat, cleared: Option<Time>): Client
    requires Inv(c) && client.cursor <= c.lastSeq
    decreases c.lastSeq - client.cursor
  {
    PageAdvancesCursor(client, c, limit, cleared);
    if JournalRows(c, client.cursor, limit, cleared) == [] then client
    else Drain(Pull(client, c, limit, cleared), c, limit, cleared)
  }

  /** Draining from any state of agreement, rows edited, deleted or erased while the client was away
      included, ends caught up: every row its reader may see is held as the server has it now. */
  lemma {:induction false} DrainCatchesUp(
    client: Client, c: Conversation, limit: nat, cleared: Option<Time>, signed: bool)
    requires Inv(c) && limit > 0 && Agrees(client, c, cleared, signed)
    ensures var drained := Drain(client, c, limit, cleared);
      && Agrees(drained, c, cleared, signed)
      && JournalRows(c, drained.cursor, limit, cleared) == []
      && forall m | m in c.messages && VisibleAt(m, cleared) :: Holds(drained, m, signed)
    decreases c.lastSeq - client.cursor
  {
    if JournalRows(c, client.cursor, limit, cleared) == [] {
      CaughtUpHoldsTheThread(client, c, limit, cleared, signed);
    } else {
      PageAdvancesCursor(client, c, limit, cleared);
      PullKeepsAgreement(client, c, limit, cleared, signed);
      DrainCatchesUp(Pull(client, c, limit, cleared), c, limit, cleared, signed);
    }
  }

  // ── Two clients of one thread ────────────────────────────────────────────

  /** What the writers did, whoever was pulling in between. */
  function Writes(events: seq<Event>): seq<Op> {
    if events == [] then []
    else
      var n := |events| - 1;
      Writes(events[..n]) + if events[n].Write? then [events[n].op] else []
  }

  lemma {:induction false} SessionRunsTheWrites(
    c: Conversation, client: Client, reader: Option<UserId>, events: seq<Event>)
    ensures Session(c, client, reader, events).0 == Run(c, Writes(events))
  {
    if events != [] {
      var n := |events| - 1;
      SessionRunsTheWrites(c, client, reader, events[..n]);
      var front := Writes(events[..n]);
      assert events[n].Write? ==> (front + [events[n].op])[..|front|] == front;
      assert front + [] == front;
    }
  }

  /** Everything the client holds of this thread lies above the mark. */
  ghost predicate HeldAbove(client: Client, c: Conversation, mark: Option<Time>) {
    forall i | 0 <= i < |c.messages| && c.messages[i].id in client.rows :: VisibleAt(c.messages[i], mark)
  }

  lemma WriteKeepsHeldAbove(client: Client, c: Conversation, c': Conversation, mark: Option<Time>)
    requires Inv(c) && Inv(c') && Grows(c, c') && HeldAbove(client, c, mark)
    requires forall id | id in client.rows :: IndexOf(c.messages, id) < |c.messages|
    ensures HeldAbove(client, c', mark)
  {
    forall i | 0 <= i < |c'.messages| && c'.messages[i].id in client.rows
      ensures VisibleAt(c'.messages[i], mark)
    {
      var j := IndexOf(c.messages, c'.messages[i].id);
      assert RowMoves(c.messages[j], c'.messages[j], c.lastSeq);
      assert i == j;
    }
  }

  lemma PullKeepsHeldAbove(client: Client, c: Conversation, limit: nat, mark: Option<Time>, now: Option<Time>)
    requires Inv(c) && HeldAbove(client, c, mark) && Cleared.MovesForward(mark, now)
    ensures HeldAbove(Pull(client, c, limit, now), c, mark)
  {
    var page := JournalRows(c, client.cursor, limit, now);
    PageRowsAreOneEach(c, client.cursor, limit, now);
    forall i | 0 <= i < |c.messages| && c.messages[i].id in Pull(client, c, limit, now).rows
      ensures VisibleAt(c.messages[i], mark)
    {
      var m := c.messages[i];
      UpsertWrites(client.rows, page, m.id);
      if x :| x in page && x.id == m.id {
        PageIsPending(c, client.cursor, limit, now, x);
        SameRevisionSameRow(c, x, m);
      }
    }
  }

  ghost predicate PulledOnly(events: seq<Event>) {
    forall i | 0 <= i < |events| :: !events[i].Push?
  }

  /** Whatever a session pulls lies above the mark its reader started with. */
  lemma {:induction false} SessionStaysAbove(
    c: Conversation, client: Client, reader: Option<UserId>, signed: bool, events: seq<Event>)
    requires Inv(c) && Seated(c, reader) && Agrees(client, c, Bound(c, reader), signed)
    requires HeldAbove(client, c, Bound(c, reader)) && AllAllowed(c, client, reader, signed, events)
    requires PulledOnly(events)
    ensures var (c', client') := Session(c, client, reader, events);
      HeldAbove(client', c', Bound(c, reader)) && Cleared.MovesForward(Bound(c, reader), Bound(c', reader))
  {
    if events != [] {
      var n := |events| - 1;
      AllowedPrefix(c, client, reader, signed, events);
      SessionStaysAbove(c, client, reader, signed, events[..n]);
      SessionKeepsAgreement(c, client, reader, signed, events[..n]);
      var (c1, client1) := Session(c, client, reader, events[..n]);
      EventStaysAbove(c1, client1, reader, signed, events[n], Bound(c, reader));
    }
  }

  lemma EventStaysAbove(
    c: Conversation, client: Client, reader: Option<UserId>, signed: bool, event: Event, mark: Option<Time>)
    requires Inv(c) && Seated(c, reader) && Agrees(client, c, Bound(c, reader), signed)
    requires HeldAbove(client, c, mark) && Cleared.MovesForward(mark, Bound(c, reader))
    requires Allowed(c, client, reader, signed, event) && !event.Push?
    ensures match event
      case Write(op) =>
        HeldAbove(client, Apply(c, op), mark) && Cleared.MovesForward(mark, Bound(Apply(c, op), reader))
      case Fetch(limit) => HeldAbove(Pull(client, c, limit, Bound(c, reader)), c, mark)
      case _ => true
  {
    match event {
      case Write(op) =>
        StepKeepsInv(c, op);
        BoundMovesForward(c, op, reader);
        WriteKeepsHeldAbove(client, c, Apply(c, op), mark);
      case Fetch(limit) => PullKeepsHeldAbove(client, c, limit, mark, Bound(c, reader));
      case _ =>
    }
  }

  const NEW_CLIENT := Client(map[], 0)

  /** Nothing left to pull. */
  ghost predicate CaughtUp(c: Conversation, client: Client, reader: Option<UserId>) {
    exists limit: nat :: limit > 0 && JournalRows(c, client.cursor, limit, Bound(c, reader)) == []
  }

  /** Filtering commutes with replay. Two fresh clients follow one thread through the same writes,
      pulling whenever and in pages of whatever size and taking frames that fit, one bounded by a
      reader's mark and one not. Once caught up they are on the same thread; the unbounded one holds
      every row, and the bounded one holds every row its reader may see with the same content. If it
      took no frames, which nobody filters, it holds none its reader had cleared before it began, and
      while the mark stands still that is the filter exactly. */
  lemma FilteringCommutesWithReplay(
    c: Conversation, user: UserId, signed: bool, mine: seq<Event>, all: seq<Event>, m: Message)
    requires Inv(c) && user in c.members && Writes(mine) == Writes(all)
    requires AllAllowed(c, NEW_CLIENT, Some(user), signed, mine) && AllAllowed(c, NEW_CLIENT, None, signed, all)
    requires var (now, bounded) := Session(c, NEW_CLIENT, Some(user), mine);
      m in now.messages && CaughtUp(now, bounded, Some(user))
    requires var (now, unbounded) := Session(c, NEW_CLIENT, None, all); CaughtUp(now, unbounded, None)
    ensures var (now, bounded) := Session(c, NEW_CLIENT, Some(user), mine);
      var (now', unbounded) := Session(c, NEW_CLIENT, None, all);
      && now' == now && m.id in unbounded.rows
      && (VisibleAt(m, MarkOf(now, user)) ==>
            m.id in bounded.rows && Shown(bounded.rows[m.id], signed) == Shown(unbounded.rows[m.id], signed))
      && (PulledOnly(mine) && m.id in bounded.rows ==> VisibleAt(m, MarkOf(c, user)))
      && (PulledOnly(mine) && MarkOf(now, user) == MarkOf(c, user) ==>
            (m.id in bounded.rows <==> VisibleAt(m, MarkOf(now, user))))
  {
    var (now, bounded) := Session(c, NEW_CLIENT, Some(user), mine);
    var (now', unbounded) := Session(c, NEW_CLIENT, None, all);
    SessionRunsTheWrites(c, NEW_CLIENT, Some(user), mine);
    SessionRunsTheWrites(c, NEW_CLIENT, None, all);
    assert now' == now;
    CaughtUpClientHolds(c, NEW_CLIENT, Some(user), signed, mine, m);
    CaughtUpClientHolds(c, NEW_CLIENT, None, signed, all, m);
    if PulledOnly(mine) {
      SessionStaysAbove(c, NEW_CLIENT, Some(user), signed, mine);
    }
  }

  lemma CaughtUpClientHolds(
    c: Conversation, client: Client, reader: Option<UserId>, signed: bool, events: seq<Event>, m: Message)
    requires Inv(c) && Seated(c, reader) && Agrees(client, c, Bound(c, reader), signed)
    requires AllAllowed(c, client, reader, signed, events)
    requires var (now, client') := Session(c, client, reader, events);
      m in now.messages && CaughtUp(now, client', reader)
    ensures var (now, client') := Session(c, client, reader, events);
      VisibleAt(m, Bound(now, reader)) ==> Holds(client', m, signed)
  {
    SessionKeepsAgreement(c, client, reader, signed, events);
    var (now, client') := Session(c, client, reader, events);
    var limit: nat :| limit > 0 && JournalRows(now, client'.cursor, limit, Bound(now, reader)) == [];
    CaughtUpHoldsTheThread(client', now, limit, Bound(now, reader), signed);
  }

  /** Why authors are left out of a run with merges: to a caught-up client a merge is silent, and
      its copy of a row still names the right author exactly when the guest did not write it. */
  lemma MergeIsNotReplayed(
    client: Client, c: Conversation, from: UserId, into: UserId, limit: nat, cleared: Option<Time>, i: nat)
    requires Inv(c) && from != into && limit > 0 && i < |c.messages| && VisibleAt(c.messages[i], cleared)
    requires Agrees(client, c, cleared, true) && JournalRows(c, client.cursor, limit, cleared) == []
    ensures var c' := Rename(c, from, into);
      Holds(client, c'.messages[i], true) <==> c.messages[i].sender != Some(from)
  {
    CaughtUpHoldsTheThread(client, c, limit, cleared, true);
    assert c.messages[i] in c.messages;
  }

  /** Replay is a pull path too: no page serves a row at or before the reader's mark. */
  lemma ReplayServesAfterTheMark(c: Conversation, user: UserId, after: nat, limit: nat, m: Message)
    ensures m in JournalRows(c, after, limit, MarkOf(c, user)) ==> m in c.messages && VisibleAt(m, MarkOf(c, user))
  {
    PageIsPending(c, after, limit, MarkOf(c, user), m);
  }

  /** ... not even after the row was edited, moved or folded into the thread. */
  lemma ClearedStaysClearedOnReplay(
    c: Conversation, ops: seq<Op>, user: UserId, after: nat, limit: nat, m: Message)
    requires AllAdmissible(c, ops) && user in c.members && KeepsAccount(ops, user)
    requires MarkOf(c, user).Some?
    ensures m in JournalRows(Run(c, ops), after, limit, MarkOf(Run(c, ops), user)) ==>
      m.createdAt > MarkOf(c, user).value
  {
    Cleared.MarkNeverMovesBackOnARun(c, ops, user);
    ReplayServesAfterTheMark(Run(c, ops), user, after, limit, m);
  }
}
