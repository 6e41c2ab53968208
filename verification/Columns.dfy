/** Who may write which column: every change of a row or of a membership has a cause among the writers,
    and every writer has its effect. Nothing here is said through the writers' own definitions. */
module Columns {
  import opened Text
  import opened Rows
  import opened Journal
  import opened Readers

  // ── What an edit is refused for ──────────────────────────────────────────

  /** The author of a live text line, in time. */
  predicate MayEdit(copy: Message, editor: UserId, window: nat, at: Time) {
    && copy.deletedAt.None? && copy.kind == TextLine && copy.sender == Some(editor)
    && (window == 0 || at - copy.createdAt <= window)
  }

  /** Which refusal each copy gets, and which get none. */
  lemma RefusalIsExact(copy: Message, editor: UserId, window: nat, at: Time)
    ensures var r := EditRefusal(copy, editor, window, at);
      && (r == None <==> MayEdit(copy, editor, window, at))
      && (r == Some(MessageGone) <==> copy.deletedAt.Some?)
      && (r == Some(NotAuthor) <==> copy.deletedAt.None? && copy.kind == TextLine && copy.sender != Some(editor))
      && (r == Some(NotEditable) <==>
            (copy.deletedAt.None? && copy.kind == SystemLine)
            || (copy.deletedAt.None? && copy.sender == Some(editor) && window > 0 && at - copy.createdAt > window))
  {
  }

  // ── Rows ─────────────────────────────────────────────────────────────────

  predicate Edits(op: Op, m: Message) {
    op.Editing? && op.copy.id == m.id && MayEdit(op.copy, op.editor, op.window, op.at)
  }

  predicate Deletes(op: Op, m: Message) {
    op.Deleting? && op.copy.id == m.id && op.copy.deletedAt.None? && op.copy.sender == Some(op.actor)
  }

  predicate Erases(op: Op, m: Message) {
    op.Erasing? && m.deletedAt.None? && m.sender == Some(op.user)
  }

  predicate Renames(op: Op, m: Message) {
    op.Renaming? && m.sender == Some(op.from)
  }

  /** What becomes of one row, column by column: an edit writes words, stamp and revision; a deletion
      empties words and attachments and stamps; an erasure takes the author as well; a merge writes the
      author alone; and no other writer writes anything. */
  ghost predicate RowWritten(m: Message, m': Message, op: Op, last: nat) {
    && m'.id == m.id && m'.number == m.number && m'.kind == m.kind && m'.createdAt == m.createdAt
    && m'.replyTo == m.replyTo && m'.clientId == m.clientId
    && m'.body == (if Edits(op, m) then op.text else if Deletes(op, m) || Erases(op, m) then "" else m.body)
    && m'.attachments == (if Deletes(op, m) || Erases(op, m) then [] else m.attachments)
    && m'.editedAt == (if Edits(op, m) then Some(op.at) else m.editedAt)
    && m'.deletedAt == (if Deletes(op, m) || Erases(op, m) then Some(op.at) else m.deletedAt)
    && m'.sender == (if Erases(op, m) then None else if Renames(op, m) then Some(op.into) else m.sender)
    && (Edits(op, m) || Deletes(op, m) ==> m'.revision == last + 1)
    && (Erases(op, m) ==> m'.revision > last)
    && (!Edits(op, m) && !Deletes(op, m) && !Erases(op, m) ==> m'.revision == m.revision)
  }

  lemma IndexOfRow(rows: seq<Message>, i: nat, id: MsgId)
    requires DistinctIds(rows) && i < |rows|
    ensures IndexOf(rows, id) == i <==> rows[i].id == id
  {
  }

  lemma EditWrites(c: Conversation, op: Op, i: nat)
    requires Inv(c) && op.Editing? && i < |c.messages|
    ensures |Apply(c, op).messages| == |c.messages|
    ensures RowWritten(c.messages[i], Apply(c, op).messages[i], op, c.lastSeq)
  {
    RefusalIsExact(op.copy, op.editor, op.window, op.at);
    IndexOfRow(c.messages, i, op.copy.id);
  }

  lemma DeletionWrites(c: Conversation, op: Op, i: nat)
    requires Inv(c) && op.Deleting? && i < |c.messages|
    ensures |Apply(c, op).messages| == |c.messages|
    ensures RowWritten(c.messages[i], Apply(c, op).messages[i], op, c.lastSeq)
  {
    IndexOfRow(c.messages, i, op.copy.id);
  }

  lemma ErasureWrites(c: Conversation, op: Op, i: nat)
    requires Inv(c) && op.Erasing? && i < |c.messages|
    ensures |Apply(c, op).messages| == |c.messages|
    ensures RowWritten(c.messages[i], Apply(c, op).messages[i], op, c.lastSeq)
  {
    ErasedRowMoves(c, op.user, op.at, i);
  }

  lemma OthersWriteNoRow(c: Conversation, op: Op, i: nat)
    requires !op.Editing? && !op.Deleting? && !op.Erasing? && i < |c.messages|
    ensures i < |Apply(c, op).messages|
    ensures RowWritten(c.messages[i], Apply(c, op).messages[i], op, c.lastSeq)
  {
  }

  /** Every step of every writer, on every row that is there. */
  lemma RowsAreWrittenForCause(c: Conversation, op: Op, i: nat)
    requires Inv(c) && i < |c.messages|
    ensures i < |Apply(c, op).messages|
    ensures RowWritten(c.messages[i], Apply(c, op).messages[i], op, c.lastSeq)
  {
    match op {
      case Editing(_, _, _, _, _) => EditWrites(c, op, i);
      case Deleting(_, _, _) => DeletionWrites(c, op, i);
      case Erasing(_, _) => ErasureWrites(c, op, i);
      case _ => OthersWriteNoRow(c, op, i);
    }
  }

  /** The rows of one author that are still live, by position. */
  function LiveRowsOf(rows: seq<Message>, user: UserId): set<int> {
    set i | 0 <= i < |rows| && rows[i].deletedAt.None? && rows[i].sender == Some(user)
  }

  lemma {:induction false} CountMineIsCardinality(rows: seq<Message>, user: UserId)
    ensures CountMine(rows, user) == |LiveRowsOf(rows, user)|
  {
    if rows != [] {
      var n := |rows| - 1;
      CountMineIsCardinality(rows[..n], user);
      assert LiveRowsOf(rows, user) == LiveRowsOf(rows[..n], user) + if Mine(rows[n], user) then {n} else {};
    }
  }

  /** An erasure takes as many numbers as it has rows to erase, and hands them out in thread order. */
  lemma ErasureTakesABlock(c: Conversation, user: UserId, at: Time, i: int, j: int)
    requires i in LiveRowsOf(c.messages, user) && j in LiveRowsOf(c.messages, user) && i < j
    ensures var c' := Apply(c, Erasing(user, at));
      && |c'.messages| == |c.messages| && c'.lastSeq == c.lastSeq + |LiveRowsOf(c.messages, user)|
      && c.lastSeq < c'.messages[i].revision < c'.messages[j].revision <= c'.lastSeq
  {
    CountMineIsCardinality(c.messages, user);
    ErasedRevision(c, user, at, i);
    ErasedRevision(c, user, at, j);
    CountMineMonotone(c.messages, user, j + 1);
    CountMineStep(c.messages, user, i, j);
  }

  // ── New rows ─────────────────────────────────────────────────────────────

  ghost predicate NewId(c: Conversation, id: MsgId) {
    forall i | 0 <= i < |c.messages| :: c.messages[i].id != id
  }

  ghost predicate NewKey(c: Conversation, key: string) {
    key == "" || forall i | 0 <= i < |c.messages| :: c.messages[i].clientId != key
  }

  lemma InsertsIffNew(c: Conversation, d: Draft)
    ensures Inserts(c, d) <==> NewId(c, d.id) && NewKey(c, d.clientId)
  {
    if NewId(c, d.id) {
      assert IndexOf(c.messages, d.id) == |c.messages|;
    }
  }

  /** Row `m` says what was sent, under this number, and was not touched since. */
  predicate SaysWhatWasSent(m: Message, d: Draft, number: nat) {
    && m.id == d.id && m.sender == d.sender && m.kind == d.kind && m.body == d.body
    && m.attachments == d.attachments && m.replyTo == d.replyTo && m.clientId == d.clientId && m.createdAt == d.at
    && m.number == m.revision == number && m.editedAt.None? && m.deletedAt.None?
  }

  /** A send adds one row, which says what was sent under the next number, exactly when neither its id
      nor its key is there yet; otherwise it changes nothing. */
  lemma SendAddsItsRow(c: Conversation, d: Draft)
    ensures var c' := Apply(c, Posting(d));
      if NewId(c, d.id) && NewKey(c, d.clientId) then
        && |c'.messages| == |c.messages| + 1 && c'.lastSeq == c.lastSeq + 1
        && SaysWhatWasSent(c'.messages[|c.messages|], d, c'.lastSeq)
      else c' == c
  {
    InsertsIffNew(c, d);
  }

  /** A departure adds the line that announces it, unless its member had left before. */
  lemma DepartureAddsItsLine(c: Conversation, user: UserId, line: MsgId, at: Time)
    requires NewId(c, line)
    ensures var c' := Apply(c, Leaving(user, line, at));
      if user in c.members && c.members[user].leftAt.None? then
        && |c'.messages| == |c.messages| + 1 && c'.lastSeq == c.lastSeq + 1
        && SaysWhatWasSent(c'.messages[|c.messages|],
             Draft(line, None, SystemLine, "chat.participant.left:" + user, [], None, "", at), c'.lastSeq)
      else c' == c
  {
    InsertsIffNew(c, LeftLine(user, line, at));
    assert LEFT_MARKER + ":" + user == "chat.participant.left:" + user;
  }

  /** A fold appends the other thread's rows in their order, on the next numbers; a key goes only where
      it is taken. Nobody else adds a row. */
  lemma FoldAppendsRows(c: Conversation, loser: Conversation, j: nat)
    requires j < |loser.messages|
    ensures var c', n := Apply(c, Adopting(loser)), |c.messages|;
      && |c'.messages| == n + |loser.messages| && c'.lastSeq == c.lastSeq + |loser.messages|
      && (var m, m' := loser.messages[j], c'.messages[n + j];
          && m'.number == m'.revision == c.lastSeq + j + 1
          && m'.clientId == (if NewKey(c, m.clientId) then m.clientId else "")
          && m' == m.(number := m'.number, revision := m'.revision, clientId := m'.clientId))
  {
    var key := loser.messages[j].clientId;
    if NewKey(c, key) && key != "" {
      assert IndexOfKey(c.messages, key) == |c.messages|;
    }
  }

  lemma NobodyElseAddsRows(c: Conversation, op: Op)
    requires !op.Posting? && !op.Leaving? && !op.Adopting?
    ensures |Apply(c, op).messages| == |c.messages|
  {
  }

  // ── Memberships ──────────────────────────────────────────────────────────

  /** A departure that is written. */
  ghost predicate Leaves(c: Conversation, op: Op, user: UserId) {
    op.Leaving? && op.user == user && NewId(c, op.line)
  }

  /** Somebody, anybody, writes, or the member takes the departure back. */
  ghost predicate ComesBack(c: Conversation, op: Op, user: UserId) {
    || (op.Rejoining? && op.user == user)
    || (op.Posting? && op.draft.sender.Some? && NewId(c, op.draft.id) && NewKey(c, op.draft.clientId))
  }

  /** The guest's marker where the guest is merged into this member. */
  function Brought(c: Conversation, op: Op, user: UserId): Option<Participant> {
    if op.Renaming? && op.into == user && op.from in c.members then Some(c.members[op.from]) else None
  }

  function Furthest(own: nat, reached: Option<nat>): nat {
    if reached.Some? && reached.value > own then reached.value else own
  }

  /** What becomes of the membership of somebody who sits here before and after. The role never moves,
      a marker only forward, by its own reader or by a merge; the departure stamp and the cleared mark
      by their own member, but for a line that brings everybody back. */
  ghost predicate SeatWritten(c: Conversation, p: Participant, p': Participant, op: Op, user: UserId) {
    var guest := Brought(c, op, user);
    && p'.role == p.role
    && p'.lastRead == Furthest(p.lastRead,
         if op.Reading? && op.user == user then Some(op.upto)
         else if guest.Some? then Some(guest.value.lastRead) else None)
    && p'.lastDelivered == Furthest(p.lastDelivered,
         if op.Receiving? && op.user == user then Some(op.upto)
         else if guest.Some? then Some(guest.value.lastDelivered) else None)
    && p'.leftAt == (if ComesBack(c, op, user) then None
                     else if Leaves(c, op, user) && p.leftAt.None? then Some(op.at) else p.leftAt)
    && p'.clearedAt == (if op.Clearing? && op.user == user then Some(op.at) else p.clearedAt)
  }

  lemma SeatsAreWrittenForCause(c: Conversation, op: Op, user: UserId)
    requires user in c.members && !(op.Renaming? && (op.from == user || op.from == op.into))
    ensures user in Apply(c, op).members
    ensures SeatWritten(c, c.members[user], Apply(c, op).members[user], op, user)
  {
    match op {
      case Posting(d) => InsertsIffNew(c, d);
      case Leaving(leaver, line, at) => InsertsIffNew(c, LeftLine(leaver, line, at));
      case _ =>
    }
  }

  /** A seat is taken by a fold, with the row the member had in the other thread, or by a merge, with the
      row the guest had here; it is given up by the merge of that very account alone. */
  lemma SeatsAreTakenForCause(c: Conversation, op: Op, user: UserId)
    ensures user !in c.members && user in Apply(c, op).members ==>
      || (op.Adopting? && user in op.loser.members && Apply(c, op).members[user] == op.loser.members[user])
      || (op.Renaming? && op.into == user && op.from in c.members
          && Apply(c, op).members[user] == c.members[op.from])
    ensures user in c.members && user !in Apply(c, op).members ==> op.Renaming? && op.from == user
    ensures op.Adopting? && user in op.loser.members ==> user in Apply(c, op).members
  {
  }

  /** Seat by seat: the guest's seat moves as it is, or gives only its markers to the seat the survivor has
      already, and nobody else's moves. */
  ghost predicate SeatsMoved(
    before: map<UserId, Participant>, after: map<UserId, Participant>, from: UserId, into: UserId)
  {
    && from !in after
    && (from !in before ==> after == before)
    && (from in before && into !in before ==> into in after && after[into] == before[from])
    && (from in before && into in before ==>
          into in after && after[into] == before[into].(
            lastRead := Furthest(before[into].lastRead, Some(before[from].lastRead)),
            lastDelivered := Furthest(before[into].lastDelivered, Some(before[from].lastDelivered))))
    && (forall other | other != from && other != into :: other in after <==> other in before)
    && (forall other | other in before && other != from && other != into :: after[other] == before[other])
  }

  /** A merge in one thread: the seats move, and the assignment follows. */
  lemma MergeMovesTheSeat(c: Conversation, from: UserId, into: UserId)
    requires from != into
    ensures var c' := Rename(c, from, into);
      && SeatsMoved(c.members, c'.members, from, into)
      && c'.operator == (if c.operator == Some(from) then Some(into) else c.operator)
      && (from in c.members && into !in c.members ==>
            (InLeft(c', into) <==> InLeft(c, from)) && (InInbox(c', into) <==> InInbox(c, from)))
  {
  }

  // ── The thread itself ────────────────────────────────────────────────────

  lemma ThreadIsWrittenForCause(c: Conversation, op: Op)
    ensures var c' := Apply(c, op);
      && c'.kind == c.kind && c'.scope == c.scope && c'.directKey == c.directKey
      && c'.subjectType == c.subjectType && c'.subjectKey == c.subjectKey
      && c'.operator == (if op.Renaming? && c.operator == Some(op.from) then Some(op.into) else c.operator)
  {
  }

  // ── Over a run ───────────────────────────────────────────────────────────

  /** Step `s` of the run wrote row `i`. */
  ghost predicate WrittenAt(c: Conversation, ops: seq<Op>, i: nat, s: int) {
    && 0 <= s < |ops| && i < |Run(c, ops[..s]).messages|
    && (var m := Run(c, ops[..s]).messages[i];
        Edits(ops[s], m) || Deletes(ops[s], m) || Erases(ops[s], m))
  }

  lemma WrittenAtFront(c: Conversation, ops: seq<Op>, i: nat, s: int)
    requires ops != [] && WrittenAt(c, ops[..|ops| - 1], i, s)
    ensures WrittenAt(c, ops, i, s)
  {
    assert ops[..|ops| - 1][..s] == ops[..s];
  }

  /** Words, attachments and stamps that differ after a run were written by one of its steps, which named
      the row and was allowed to. */
  lemma {:induction false} ContentChangesForCause(c: Conversation, ops: seq<Op>, i: nat)
    requires Inv(c) && AllAdmissible(c, ops) && i < |c.messages|
    ensures i < |Run(c, ops).messages|
    ensures var m, m' := c.messages[i], Run(c, ops).messages[i];
      (m'.body, m'.attachments, m'.editedAt, m'.deletedAt) != (m.body, m.attachments, m.editedAt, m.deletedAt) ==>
        exists s :: WrittenAt(c, ops, i, s)
  {
    if ops != [] {
      var n := |ops| - 1;
      RunPrefix(c, ops, n);
      RunKeepsInv(c, ops[..n]);
      ContentChangesForCause(c, ops[..n], i);
      RowsAreWrittenForCause(Run(c, ops[..n]), ops[n], i);
      var m0, m1 := Run(c, ops[..n]).messages[i], Run(c, ops).messages[i];
      if (m1.body, m1.attachments, m1.editedAt, m1.deletedAt) != (m0.body, m0.attachments, m0.editedAt, m0.deletedAt) {
        assert WrittenAt(c, ops, i, n);
      } else if s :| WrittenAt(c, ops[..n], i, s) {
        WrittenAtFront(c, ops, i, s);
      }
    }
  }

  function Actor(op: Op): Option<UserId> {
    match op
    case Editing(_, editor, _, _, _) => Some(editor)
    case Deleting(_, actor, _) => Some(actor)
    case Erasing(user, _) => Some(user)
    case _ => None
  }

  /** Some state up to step `s` had this very row. */
  ghost predicate WasRead(c: Conversation, ops: seq<Op>, s: nat, copy: Message)
    requires s <= |ops|
  {
    exists t: nat :: t <= s && copy in Run(c, ops[..t]).messages
  }

  /** Edits and deletions act on copies their callers read, however long ago. */
  ghost predicate CopiesWereRead(c: Conversation, ops: seq<Op>) {
    forall s | 0 <= s < |ops| ::
      (ops[s].Editing? ==> WasRead(c, ops, s, ops[s].copy)) && (ops[s].Deleting? ==> WasRead(c, ops, s, ops[s].copy))
  }

  /** At some state up to step `s`, row `i` was by whoever acts in step `s`. */
  ghost predicate ByItsAuthor(c: Conversation, ops: seq<Op>, i: nat, s: int) {
    && 0 <= s < |ops|
    && exists t: nat :: t <= s && i < |Run(c, ops[..t]).messages|
         && Run(c, ops[..t]).messages[i].sender == Actor(ops[s])
  }

  lemma IdStays(c: Conversation, ops: seq<Op>, i: nat, t: nat)
    requires Inv(c) && AllAdmissible(c, ops) && i < |c.messages| && t <= |ops|
    ensures Inv(Run(c, ops[..t])) && i < |Run(c, ops[..t]).messages|
    ensures Run(c, ops[..t]).messages[i].id == c.messages[i].id
  {
    RunPrefix(c, ops, t);
    RunKeepsInv(c, ops[..t]);
    assert RowMoves(c.messages[i], Run(c, ops[..t]).messages[i], c.lastSeq);
  }

  lemma ReadCopyIsTheRow(c: Conversation, ops: seq<Op>, i: nat, s: nat, copy: Message) returns (t: nat)
    requires Inv(c) && AllAdmissible(c, ops) && i < |c.messages| && s <= |ops|
    requires copy.id == c.messages[i].id && WasRead(c, ops, s, copy)
    ensures t <= s && i < |Run(c, ops[..t]).messages| && Run(c, ops[..t]).messages[i] == copy
  {
    t :| t <= s && copy in Run(c, ops[..t]).messages;
    IdStays(c, ops, i, t);
    var j :| 0 <= j < |Run(c, ops[..t]).messages| && Run(c, ops[..t]).messages[j] == copy;
    assert i == j;
  }

  lemma WrittenByItsAuthor(c: Conversation, ops: seq<Op>, i: nat, s: nat)
    requires Inv(c) && AllAdmissible(c, ops) && CopiesWereRead(c, ops) && i < |c.messages|
    requires WrittenAt(c, ops, i, s)
    ensures ByItsAuthor(c, ops, i, s)
  {
    IdStays(c, ops, i, s);
    if !ops[s].Erasing? {
      var t := ReadCopyIsTheRow(c, ops, i, s, ops[s].copy);
    }
  }

  /** Nobody rewrites anybody else's message: if the words, attachments or stamps of a row differ after a
      run, one of its steps named the row, was allowed to, and was taken by somebody who was the row's
      author when the copy it acts on was read. */
  lemma OnlyTheAuthorRewrites(c: Conversation, ops: seq<Op>, i: nat)
    requires Inv(c) && AllAdmissible(c, ops) && CopiesWereRead(c, ops) && i < |c.messages|
    ensures i < |Run(c, ops).messages|
    ensures var m, m' := c.messages[i], Run(c, ops).messages[i];
      (m'.body, m'.attachments, m'.editedAt, m'.deletedAt) != (m.body, m.attachments, m.editedAt, m.deletedAt) ==>
        exists s :: WrittenAt(c, ops, i, s) && ByItsAuthor(c, ops, i, s)
  {
    ContentChangesForCause(c, ops, i);
    if s :| WrittenAt(c, ops, i, s) {
      WrittenByItsAuthor(c, ops, i, s);
    }
  }
}
