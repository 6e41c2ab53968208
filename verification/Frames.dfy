/** The frames the writers push after a commit, and the sessions of a client that lives on them. */
module Frames {
  import opened Text
  import opened Rows
  import opened Journal
  import opened Tombstones
  import opened Replay
  import Cleared

  // ── What a writer pushes ─────────────────────────────────────────────────

  function ErasureFrame(c: Conversation, user: UserId, at: Time, i: nat): Payload
    requires i < |c.messages|
  {
    MessagePayload(Erased(c.messages[i], at, c.lastSeq + CountMine(c.messages[..i + 1], user)))
  }

  /** One frame for each row a writer touched. An edit and a deletion build theirs from the copy they
      were given, an erasure from the rows it read under the lock; folds and merges push nothing. */
  function FramesOf(c: Conversation, op: Op): set<Payload> {
    match op
    case Posting(d) => if Inserts(c, d) then {MessagePayload(NewRow(d, c.lastSeq + 1))} else {}
    case Editing(copy, editor, text, window, at) =>
      if EditRefusal(copy, editor, window, at).Some? || IndexOf(c.messages, copy.id) == |c.messages| then {}
      else {MessagePayload(EditedRow(copy, text, at, c.lastSeq + 1))}
    case Deleting(copy, actor, at) =>
      if copy.sender != Some(actor) || !copy.Live() || IndexOf(c.messages, copy.id) == |c.messages| then {}
      else {MessagePayload(DeletedRow(copy, at, c.lastSeq + 1))}
    case Erasing(user, at) =>
      set i | 0 <= i < |c.messages| && Mine(c.messages[i], user) :: ErasureFrame(c, user, at, i)
    case Leaving(user, line, at) =>
      if user in c.members && c.members[user].leftAt.None? && Inserts(c, LeftLine(user, line, at))
      then {MessagePayload(NewRow(LeftLine(user, line, at), c.lastSeq + 1))}
      else {}
    case _ => {}
  }

  /** The copy was read from this row at some earlier moment. */
  predicate CopyOf(copy: Message, m: Message) {
    && copy.id == m.id && copy.number == m.number && copy.kind == m.kind
    && copy.createdAt == m.createdAt && copy.clientId == m.clientId && copy.replyTo == m.replyTo
    && (m.Live() ==> copy.Live() && copy.attachments == m.attachments)
  }

  /** What an edit must still find in the stored row, and what a deletion must. */
  predicate EditIsCurrent(copy: Message, m: Message, signed: bool) {
    m.Live() && (signed ==> m.sender == copy.sender)
  }

  predicate DeletionIsCurrent(copy: Message, m: Message, signed: bool) {
    m.editedAt == copy.editedAt && (signed ==> m.sender == copy.sender)
  }

  predicate Current(c: Conversation, op: Op, signed: bool) {
    match op
    case Editing(copy, editor, text, window, at) =>
      var i := IndexOf(c.messages, copy.id);
      EditRefusal(copy, editor, window, at).None? && i < |c.messages| ==>
        CopyOf(copy, c.messages[i]) && EditIsCurrent(copy, c.messages[i], signed)
    case Deleting(copy, actor, at) =>
      var i := IndexOf(c.messages, copy.id);
      copy.sender == Some(actor) && copy.Live() && i < |c.messages| ==>
        CopyOf(copy, c.messages[i]) && DeletionIsCurrent(copy, c.messages[i], signed)
    case _ => true
  }

  /** Every row of an earlier state is read off as such a copy. */
  lemma EarlierRowIsACopy(c: Conversation, ops: seq<Op>, i: nat)
    requires Inv(c) && AllAdmissible(c, ops) && i < |c.messages|
    ensures i < |Run(c, ops).messages| && CopyOf(c.messages[i], Run(c, ops).messages[i])
  {
    RunKeepsInv(c, ops);
    assert RowMoves(c.messages[i], Run(c, ops).messages[i], c.lastSeq);
  }

  // ── When a frame fits ────────────────────────────────────────────────────

  /** A frame under the number and the id of row `i` fits exactly when it shows that row. */
  lemma FrameOfRowFitsIff(c: Conversation, i: nat, frame: Payload, cleared: Option<Time>, signed: bool)
    requires Inv(c) && i < |c.messages| && VisibleAt(c.messages[i], cleared)
    requires frame.id == c.messages[i].id && frame.revision == c.messages[i].revision
    ensures FrameFits(frame, c, cleared, signed) <==>
      ShowsRow(frame, c.messages[i], signed)
  {
    assert forall j | 0 <= j < |c.messages| && j != i ::
      c.messages[j].id != frame.id && c.messages[j].revision != frame.revision;
    assert IndexOf(c.messages, frame.id) == i;
  }

  lemma HiddenFrameFits(c: Conversation, i: nat, frame: Payload, cleared: Option<Time>, signed: bool)
    requires Inv(c) && i < |c.messages| && !VisibleAt(c.messages[i], cleared)
    requires frame.id == c.messages[i].id && frame.revision == c.messages[i].revision
    ensures FrameFits(frame, c, cleared, signed)
  {
    assert forall j | 0 <= j < |c.messages| && j != i ::
      c.messages[j].id != frame.id && c.messages[j].revision != frame.revision;
    assert IndexOf(c.messages, frame.id) == i;
  }

  /** The frame of an edit, at the moment of its commit: it fits exactly when nobody deleted the row and
      no merge took its author since the copy was read. */
  lemma EditFrameFitsIff(
    c: Conversation, copy: Message, i: nat, text: string, at: Time, cleared: Option<Time>, signed: bool)
    requires Inv(c) && i < |c.messages| && CopyOf(copy, c.messages[i]) && copy.kind.TextLine? && copy.Live()
    requires VisibleAt(c.messages[i], cleared)
    ensures var frame := MessagePayload(EditedRow(copy, text, at, c.lastSeq + 1));
      FrameFits(frame, EditLocked(c, copy.id, text, at), cleared, signed) <==>
        EditIsCurrent(copy, c.messages[i], signed)
  {
    EditKeepsInv(c, copy.id, text, at);
    assert IndexOf(c.messages, copy.id) == i;
    var frame := MessagePayload(EditedRow(copy, text, at, c.lastSeq + 1));
    FrameOfRowFitsIff(EditLocked(c, copy.id, text, at), i, frame, cleared, signed);
  }

  /** The frame of a deletion fits exactly when no edit stamped the row and, where authors count,
      neither an erasure nor a merge took its author. */
  lemma DeletionFrameFitsIff(
    c: Conversation, copy: Message, i: nat, at: Time, cleared: Option<Time>, signed: bool)
    requires Inv(c) && i < |c.messages| && CopyOf(copy, c.messages[i]) && copy.kind.TextLine? && copy.Live()
    requires VisibleAt(c.messages[i], cleared)
    ensures var frame := MessagePayload(DeletedRow(copy, at, c.lastSeq + 1));
      FrameFits(frame, DeleteLocked(c, copy.id, at), cleared, signed) <==>
        DeletionIsCurrent(copy, c.messages[i], signed)
  {
    DeleteKeepsInv(c, copy.id, at);
    assert IndexOf(c.messages, copy.id) == i;
    var frame := MessagePayload(DeletedRow(copy, at, c.lastSeq + 1));
    FrameOfRowFitsIff(DeleteLocked(c, copy.id, at), i, frame, cleared, signed);
  }

  lemma RowFrameFits(c: Conversation, i: nat, cleared: Option<Time>, signed: bool, frame: Payload)
    requires Inv(c) && i < |c.messages| && ShowsRow(frame, c.messages[i], signed)
    ensures FrameFits(frame, c, cleared, signed)
  {
    if VisibleAt(c.messages[i], cleared) {
      FrameOfRowFitsIff(c, i, frame, cleared, signed);
    } else {
      HiddenFrameFits(c, i, frame, cleared, signed);
    }
  }

  ghost predicate Shows(frame: Payload, c: Conversation, i: nat, signed: bool) {
    i < |c.messages| && ShowsRow(frame, c.messages[i], signed)
  }

  lemma PostFrameShows(c: Conversation, d: Draft, signed: bool)
    requires Inserts(c, d)
    ensures Shows(MessagePayload(NewRow(d, c.lastSeq + 1)), PostOnce(c, d), |c.messages|, signed)
  {
  }

  lemma EditFrameShows(c: Conversation, copy: Message, text: string, at: Time, signed: bool)
    requires var i := IndexOf(c.messages, copy.id);
      i < |c.messages| && copy.Live() && CopyOf(copy, c.messages[i]) && EditIsCurrent(copy, c.messages[i], signed)
    ensures Shows(MessagePayload(EditedRow(copy, text, at, c.lastSeq + 1)), EditLocked(c, copy.id, text, at),
      IndexOf(c.messages, copy.id), signed)
  {
  }

  lemma DeletionFrameShows(c: Conversation, copy: Message, at: Time, signed: bool)
    requires var i := IndexOf(c.messages, copy.id);
      i < |c.messages| && CopyOf(copy, c.messages[i]) && DeletionIsCurrent(copy, c.messages[i], signed)
    ensures Shows(MessagePayload(DeletedRow(copy, at, c.lastSeq + 1)), DeleteLocked(c, copy.id, at),
      IndexOf(c.messages, copy.id), signed)
  {
  }

  lemma LeaveFrameShows(c: Conversation, user: UserId, line: MsgId, at: Time, signed: bool)
    requires user in c.members && c.members[user].leftAt.None? && Inserts(c, LeftLine(user, line, at))
    ensures Shows(MessagePayload(NewRow(LeftLine(user, line, at), c.lastSeq + 1)), Leave(c, user, line, at),
      |c.messages|, signed)
  {
  }

  /** Each frame of a current writer shows a row of the thread the writer left. */
  lemma FrameShowsItsRow(c: Conversation, op: Op, signed: bool, frame: Payload) returns (i: nat)
    requires Inv(c) && Current(c, op, signed) && frame in FramesOf(c, op)
    ensures Shows(frame, Apply(c, op), i, signed)
  {
    match op {
      case Posting(d) =>
        i := |c.messages|;
        PostFrameShows(c, d, signed);
      case Leaving(user, line, at) =>
        i := |c.messages|;
        LeaveFrameShows(c, user, line, at, signed);
      case Editing(copy, editor, text, window, at) =>
        i := IndexOf(c.messages, copy.id);
        EditFrameShows(c, copy, text, at, signed);
      case Deleting(copy, actor, at) =>
        i := IndexOf(c.messages, copy.id);
        DeletionFrameShows(c, copy, at, signed);
      case Erasing(user, at) =>
        i := ErasureFrameShows(c, user, at, signed, frame);
    }
  }

  lemma ErasureFrameShows(c: Conversation, user: UserId, at: Time, signed: bool, frame: Payload) returns (i: nat)
    requires Inv(c) && frame in FramesOf(c, Erasing(user, at))
    ensures Shows(frame, EraseUser(c, user, at), i, signed)
  {
    i :| 0 <= i < |c.messages| && Mine(c.messages[i], user) && frame == ErasureFrame(c, user, at, i);
    ErasedRowShows(c, user, at, i, signed);
  }

  lemma ErasedRowShows(c: Conversation, user: UserId, at: Time, i: nat, signed: bool)
    requires i < |c.messages| && Mine(c.messages[i], user)
    ensures Shows(ErasureFrame(c, user, at, i), EraseUser(c, user, at), i, signed)
  {
    EraseRowsAt(c.messages, user, at, c.lastSeq, i);
  }

  /** A row was added, or put under a new revision. */
  predicate Touched(c: Conversation, c': Conversation, i: nat)
    requires i < |c'.messages|
  {
    i >= |c.messages| || c'.messages[i].revision != c.messages[i].revision
  }

  /** The frame goes out for row `i` of what the writer leaves. */
  ghost predicate PushedFor(c: Conversation, op: Op, i: nat, frame: Payload) {
    && i < |Apply(c, op).messages| && frame in FramesOf(c, op)
    && frame.id == Apply(c, op).messages[i].id && frame.revision == Apply(c, op).messages[i].revision
  }

  lemma SendIsPushed(c: Conversation, op: Op, i: nat) returns (frame: Payload)
    requires op.Posting? && i < |Apply(c, op).messages| && Touched(c, Apply(c, op), i)
    ensures PushedFor(c, op, i, frame)
  {
    frame := MessagePayload(NewRow(op.draft, c.lastSeq + 1));
  }

  lemma DepartureIsPushed(c: Conversation, op: Op, i: nat) returns (frame: Payload)
    requires op.Leaving? && i < |Apply(c, op).messages| && Touched(c, Apply(c, op), i)
    ensures PushedFor(c, op, i, frame)
  {
    frame := MessagePayload(NewRow(LeftLine(op.user, op.line, op.at), c.lastSeq + 1));
  }

  lemma EditIsPushed(c: Conversation, op: Op, i: nat) returns (frame: Payload)
    requires op.Editing? && i < |Apply(c, op).messages| && Touched(c, Apply(c, op), i)
    ensures PushedFor(c, op, i, frame)
  {
    frame := MessagePayload(EditedRow(op.copy, op.text, op.at, c.lastSeq + 1));
  }

  lemma DeletionIsPushed(c: Conversation, op: Op, i: nat) returns (frame: Payload)
    requires op.Deleting? && i < |Apply(c, op).messages| && Touched(c, Apply(c, op), i)
    ensures PushedFor(c, op, i, frame)
  {
    frame := MessagePayload(DeletedRow(op.copy, op.at, c.lastSeq + 1));
  }

  lemma ErasureIsPushed(c: Conversation, op: Op, i: nat) returns (frame: Payload)
    requires Inv(c) && op.Erasing? && i < |c.messages| && Touched(c, Apply(c, op), i)
    ensures PushedFor(c, op, i, frame)
  {
    ErasedRowMoves(c, op.user, op.at, i);
    frame := ErasureFrame(c, op.user, op.at, i);
  }

  /** Nothing changes silently but in a fold or a merge: every row a writer adds or puts under a new
      revision goes out in a frame under that revision. */
  lemma EveryChangeIsPushed(c: Conversation, op: Op, i: nat) returns (frame: Payload)
    requires Inv(c) && !op.Adopting? && !op.Renaming? && i < |Apply(c, op).messages| && Touched(c, Apply(c, op), i)
    ensures PushedFor(c, op, i, frame)
  {
    match op {
      case Posting(_) => frame := SendIsPushed(c, op, i);
      case Leaving(_, _, _) => frame := DepartureIsPushed(c, op, i);
      case Editing(_, _, _, _, _) => frame := EditIsPushed(c, op, i);
      case Deleting(_, _, _) => frame := DeletionIsPushed(c, op, i);
      case Erasing(_, _) => frame := ErasureIsPushed(c, op, i);
    }
  }

  lemma SentFrameFits(c: Conversation, op: Op, cleared: Option<Time>, signed: bool, frame: Payload)
    requires Inv(c) && Admissible(c, op) && Current(c, op, signed) && frame in FramesOf(c, op)
    ensures FrameFits(frame, Apply(c, op), cleared, signed)
  {
    StepKeepsInv(c, op);
    var i := FrameShowsItsRow(c, op, signed, frame);
    RowFrameFits(Apply(c, op), i, cleared, signed, frame);
  }

  /** A frame that fits keeps fitting, however late it arrives: a writer moves what it changes past it. */
  lemma FrameStaysFit(c: Conversation, op: Op, cleared: Option<Time>, cleared': Option<Time>, signed: bool,
    frame: Payload)
    requires Inv(c) && Admissible(c, op) && (signed ==> !op.Renaming?)
    requires Cleared.MovesForward(cleared, cleared') && FrameFits(frame, c, cleared, signed)
    ensures FrameFits(frame, Apply(c, op), cleared', signed)
  {
    var c' := Apply(c, op);
    StepKeepsInv(c, op);
    KnownIdStays(c, c', frame.id);
    forall i | 0 <= i < |c'.messages| && VisibleAt(c'.messages[i], cleared')
      && (c'.messages[i].id == frame.id || c'.messages[i].revision == frame.revision)
      && c'.messages[i].revision <= frame.revision
      ensures ShowsRow(frame, c'.messages[i], signed)
    {
      RowStaysShown(c, op, i, cleared, cleared', signed, frame);
    }
  }

  lemma RowStaysShown(c: Conversation, op: Op, i: nat, cleared: Option<Time>, cleared': Option<Time>, signed: bool,
    frame: Payload)
    requires Inv(c) && Admissible(c, op) && (signed ==> !op.Renaming?)
    requires Cleared.MovesForward(cleared, cleared') && FrameFits(frame, c, cleared, signed)
    requires i < |Apply(c, op).messages|
    requires var m' := Apply(c, op).messages[i];
      && VisibleAt(m', cleared') && (m'.id == frame.id || m'.revision == frame.revision)
      && m'.revision <= frame.revision
    ensures ShowsRow(frame, Apply(c, op).messages[i], signed)
  {
    RowStays(c, op, i, frame.revision, signed);
    assert ShowsRow(frame, c.messages[i], signed);
  }

  // ── Live sessions ────────────────────────────────────────────────────────

  /** The frames pushed so far. */
  function Sent(c: Conversation, client: Client, reader: Option<UserId>, events: seq<Event>): set<Payload> {
    if events == [] then {}
    else
      var n := |events| - 1;
      Sent(c, client, reader, events[..n]) +
        if events[n].Write? then FramesOf(Session(c, client, reader, events[..n]).0, events[n].op) else {}
  }

  /** Edits and deletions act on current copies, pages are asked for, and a frame that was pushed arrives:
      once, again or never, at any later moment, but not past a row its reader may see. */
  ghost predicate Live(
    c: Conversation, client: Client, sent: set<Payload>, reader: Option<UserId>, signed: bool, event: Event)
  {
    match event
    case Write(op) => Allowed(c, client, reader, signed, event) && Current(c, op, signed)
    case Fetch(limit) => limit > 0
    case Push(frame) => frame in sent && NoneBetween(c, Bound(c, reader), client.cursor, frame.revision)
  }

  ghost predicate LiveAt(c: Conversation, client: Client, reader: Option<UserId>, signed: bool, events: seq<Event>,
    i: nat)
    requires i < |events|
  {
    var (now, client') := Session(c, client, reader, events[..i]);
    Live(now, client', Sent(c, client, reader, events[..i]), reader, signed, events[i])
  }

  ghost predicate AllLive(c: Conversation, client: Client, reader: Option<UserId>, signed: bool, events: seq<Event>) {
    forall i | 0 <= i < |events| :: LiveAt(c, client, reader, signed, events, i)
  }

  lemma LivePrefix(c: Conversation, client: Client, reader: Option<UserId>, signed: bool, events: seq<Event>)
    requires events != [] && AllLive(c, client, reader, signed, events)
    ensures AllLive(c, client, reader, signed, events[..|events| - 1])
    ensures LiveAt(c, client, reader, signed, events, |events| - 1)
  {
    var n := |events| - 1;
    forall i | 0 <= i < n
      ensures LiveAt(c, client, reader, signed, events[..n], i)
    {
      assert LiveAt(c, client, reader, signed, events, i);
      assert events[..n][..i] == events[..i];
    }
  }

  ghost predicate AllFit(frames: set<Payload>, c: Conversation, cleared: Option<Time>, signed: bool) {
    forall frame | frame in frames :: FrameFits(frame, c, cleared, signed)
  }

  lemma WriteKeepsFramesFit(c: Conversation, client: Client, reader: Option<UserId>, signed: bool, op: Op,
    sent: set<Payload>)
    requires Inv(c) && Seated(c, reader) && AllFit(sent, c, Bound(c, reader), signed)
    requires Allowed(c, client, reader, signed, Write(op)) && Current(c, op, signed)
    ensures AllFit(sent + FramesOf(c, op), Apply(c, op), Bound(Apply(c, op), reader), signed)
  {
    BoundMovesForward(c, op, reader);
    var after := Bound(Apply(c, op), reader);
    forall frame | frame in sent + FramesOf(c, op)
      ensures FrameFits(frame, Apply(c, op), after, signed)
    {
      if frame in sent {
        FrameStaysFit(c, op, Bound(c, reader), after, signed, frame);
      } else {
        SentFrameFits(c, op, after, signed, frame);
      }
    }
  }

  lemma AllowedGrows(c: Conversation, client: Client, reader: Option<UserId>, signed: bool, events: seq<Event>)
    requires events != [] && AllAllowed(c, client, reader, signed, events[..|events| - 1])
    requires AllowedNow(Session(c, client, reader, events[..|events| - 1]), reader, signed, events[|events| - 1])
    ensures AllAllowed(c, client, reader, signed, events)
  {
    var n := |events| - 1;
    forall i | 0 <= i < |events|
      ensures AllowedNow(Session(c, client, reader, events[..i]), reader, signed, events[i])
    {
      if i < n {
        assert events[..n][..i] == events[..i] && events[..n][i] == events[i];
      }
    }
  }

  /** A client that lives on pushed frames converges. Writers push, pages are fetched, frames arrive late,
      twice or not at all; as long as edits and deletions act on current copies and no frame jumps over a
      row, the client agrees with the server on everything at or below its cursor. */
  lemma {:induction false} LiveReplayConverges(
    c: Conversation, client: Client, reader: Option<UserId>, signed: bool, events: seq<Event>)
    requires Inv(c) && Seated(c, reader) && Agrees(client, c, Bound(c, reader), signed)
    requires AllLive(c, client, reader, signed, events)
    ensures AllAllowed(c, client, reader, signed, events)
    ensures var (c', client') := Session(c, client, reader, events);
      && Inv(c') && Seated(c', reader) && Agrees(client', c', Bound(c', reader), signed)
      && AllFit(Sent(c, client, reader, events), c', Bound(c', reader), signed)
  {
    if events != [] {
      var n := |events| - 1;
      LivePrefix(c, client, reader, signed, events);
      LiveReplayConverges(c, client, reader, signed, events[..n]);
      var (c1, client1) := Session(c, client, reader, events[..n]);
      var sent := Sent(c, client, reader, events[..n]);
      if events[n].Write? {
        WriteKeepsFramesFit(c1, client1, reader, signed, events[n].op, sent);
      }
      AllowedGrows(c, client, reader, signed, events);
      SessionKeepsAgreement(c, client, reader, signed, events);
    }
  }

  // ── The client never runs ahead ──────────────────────────────────────────

  lemma PullKeepsBehind(client: Client, c: Conversation, limit: nat, cleared: Option<Time>)
    requires Inv(c) && NotAhead(client) && client.cursor <= c.lastSeq
    ensures NotAhead(Pull(client, c, limit, cleared))
  {
    var page := JournalRows(c, client.cursor, limit, cleared);
    var client' := Pull(client, c, limit, cleared);
    PageAdvancesCursor(client, c, limit, cleared);
    PageRowsAreOneEach(c, client.cursor, limit, cleared);
    forall id | id in client'.rows
      ensures client'.rows[id].revision <= client'.cursor
    {
      UpsertWrites(client.rows, page, id);
      if m :| m in page && m.id == id {
        PageIsPending(c, client.cursor, limit, cleared, m);
      }
    }
  }

  /** Whatever arrives, a session that starts behind its cursor stays behind it, so the exact condition on
      frames is the condition at every moment of it. */
  lemma {:induction false} SessionStaysBehind(
    c: Conversation, client: Client, reader: Option<UserId>, signed: bool, events: seq<Event>)
    requires Inv(c) && Seated(c, reader) && Agrees(client, c, Bound(c, reader), signed) && NotAhead(client)
    requires AllAllowed(c, client, reader, signed, events)
    ensures NotAhead(Session(c, client, reader, events).1)
  {
    if events != [] {
      var n := |events| - 1;
      AllowedPrefix(c, client, reader, signed, events);
      SessionStaysBehind(c, client, reader, signed, events[..n]);
      SessionKeepsAgreement(c, client, reader, signed, events[..n]);
      EventKeepsBehind(Session(c, client, reader, events[..n]), reader, signed, events[n]);
    }
  }

  lemma EventKeepsBehind(state: (Conversation, Client), reader: Option<UserId>, signed: bool, event: Event)
    requires var (c, client) := state;
      Inv(c) && NotAhead(client) && Agrees(client, c, Bound(c, reader), signed)
    ensures var (c, client) := state;
      NotAhead(match event
        case Write(op) => client
        case Fetch(limit) => Pull(client, c, limit, Bound(c, reader))
        case Push(frame) => Take(client, frame))
  {
    if event.Fetch? {
      PullKeepsBehind(state.1, state.0, event.limit, Bound(state.0, reader));
    }
  }

  /** The first frame that does not fit is the one that breaks the agreement: after any live session the
      next frame keeps it exactly when the client may take it. */
  lemma NextFrameKeepsAgreementIff(
    c: Conversation, client: Client, reader: Option<UserId>, signed: bool, events: seq<Event>, frame: Payload)
    requires Inv(c) && Seated(c, reader) && Agrees(client, c, Bound(c, reader), signed) && NotAhead(client)
    requires AllAllowed(c, client, reader, signed, events)
    ensures var (now, client') := Session(c, client, reader, events);
      Agrees(Take(client', frame), now, Bound(now, reader), signed) <==>
        Takes(client', frame, now, Bound(now, reader), signed)
  {
    SessionKeepsAgreement(c, client, reader, signed, events);
    SessionStaysBehind(c, client, reader, signed, events);
    var (now, client') := Session(c, client, reader, events);
    FrameKeepsAgreementIff(client', frame, now, Bound(now, reader), signed);
  }

  // ── A stale frame ────────────────────────────────────────────────────────

  /** Why edits must act on current copies: an edit of a message deleted in between pushes its words under
      the very number of the stored tombstone. A client that was caught up keeps them, and no page it asks
      for says otherwise. */
  lemma StaleEditFrameSticks(client: Client, c: Conversation, i: nat, copy: Message, editor: UserId, text: string,
    window: nat, at: Time, cleared: Option<Time>, limit: nat, signed: bool)
    requires Inv(c) && i < |c.messages| && !c.messages[i].Live() && VisibleAt(c.messages[i], cleared)
    requires CopyOf(copy, c.messages[i]) && EditRefusal(copy, editor, window, at).None?
    requires Agrees(client, c, cleared, signed) && client.cursor == c.lastSeq
    ensures var c' := Apply(c, Editing(copy, editor, text, window, at));
      var frame := MessagePayload(EditedRow(copy, text, at, c'.lastSeq));
      var client' := Take(client, frame);
      && i < |c'.messages| && MessagePayload(c'.messages[i]).deleted && MessagePayload(c'.messages[i]).body == ""
      && frame in FramesOf(c, Editing(copy, editor, text, window, at))
      && copy.id in client'.rows && client'.rows[copy.id].body == text && !client'.rows[copy.id].deleted
      && JournalRows(c', client'.cursor, limit, cleared) == []
      && !Agrees(client', c', cleared, signed)
  {
    AcceptedEdit(c, i, copy, editor, text, window, at);
    StaleEditSticks(client, c, i, copy, text, at, cleared, limit, signed);
  }

  lemma AcceptedEdit(
    c: Conversation, i: nat, copy: Message, editor: UserId, text: string, window: nat, at: Time)
    requires Inv(c) && i < |c.messages| && c.messages[i].id == copy.id
    requires EditRefusal(copy, editor, window, at).None?
    ensures Apply(c, Editing(copy, editor, text, window, at)) == EditLocked(c, copy.id, text, at)
    ensures MessagePayload(EditedRow(copy, text, at, c.lastSeq + 1)) in
      FramesOf(c, Editing(copy, editor, text, window, at))
    ensures copy.Live() && copy.kind.TextLine?
  {
    assert IndexOf(c.messages, copy.id) == i;
  }

  lemma StaleEditSticks(client: Client, c: Conversation, i: nat, copy: Message, text: string, at: Time,
    cleared: Option<Time>, limit: nat, signed: bool)
    requires Inv(c) && i < |c.messages| && !c.messages[i].Live() && VisibleAt(c.messages[i], cleared)
    requires CopyOf(copy, c.messages[i]) && copy.Live() && copy.kind.TextLine?
    requires Agrees(client, c, cleared, signed) && client.cursor == c.lastSeq
    ensures var c' := EditLocked(c, copy.id, text, at);
      var client' := Take(client, MessagePayload(EditedRow(copy, text, at, c'.lastSeq)));
      && c'.lastSeq == c.lastSeq + 1 && i < |c'.messages| && !c'.messages[i].Live()
      && client'.rows == client.rows[copy.id := MessagePayload(EditedRow(copy, text, at, c'.lastSeq))]
      && JournalRows(c', client'.cursor, limit, cleared) == []
      && !Agrees(client', c', cleared, signed)
  {
    assert IndexOf(c.messages, copy.id) == i;
    EditKeepsInv(c, copy.id, text, at);
    var c' := EditLocked(c, copy.id, text, at);
    var client' := Take(client, MessagePayload(EditedRow(copy, text, at, c'.lastSeq)));
    NothingAboveTheCounter(c', limit, cleared);
    assert c'.messages[i].revision <= client'.cursor && !Holds(client', c'.messages[i], signed);
  }

  lemma NothingAboveTheCounter(c: Conversation, limit: nat, cleared: Option<Time>)
    requires Inv(c)
    ensures JournalRows(c, c.lastSeq, limit, cleared) == []
  {
    var page := JournalRows(c, c.lastSeq, limit, cleared);
    if page != [] {
      PageIsPending(c, c.lastSeq, limit, cleared, page[0]);
    }
  }
}
