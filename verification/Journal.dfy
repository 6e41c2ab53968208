/** One thread and everything that changes it. Every transaction of the services is one step on
    the conversation; the counter `lastSeq` feeds both the places and the revisions. */
module Journal {
  import opened Text
  import opened Rows

  // ── Invariant ────────────────────────────────────────────────────────────

  ghost predicate Top(rows: seq<Message>, last: nat, i: int) {
    0 <= i < |rows| && rows[i].revision == last
  }

  ghost predicate Numbered(rows: seq<Message>, last: nat) {
    && (forall i | 0 <= i < |rows| :: 1 <= rows[i].number <= rows[i].revision <= last)
    && (forall i, j | 0 <= i < j < |rows| :: rows[i].number < rows[j].number)
    && (forall i, j | 0 <= i < j < |rows| :: rows[i].revision != rows[j].revision)
    && (rows == [] <==> last == 0)
    && (rows != [] ==> exists i :: Top(rows, last, i))
  }

  ghost predicate DistinctIds(rows: seq<Message>) {
    forall i, j | 0 <= i < j < |rows| :: rows[i].id != rows[j].id
  }

  ghost predicate DistinctKeys(rows: seq<Message>) {
    forall i, j | 0 <= i < j < |rows| :: rows[i].clientId == rows[j].clientId ==> rows[i].clientId == ""
  }

  predicate Sound(m: Message) {
    Drawable(m) && m.createdAt > EPOCH && (!m.Live() ==> m.attachments == [])
  }

  ghost predicate AllSound(rows: seq<Message>) {
    forall i | 0 <= i < |rows| :: Sound(rows[i])
  }

  ghost predicate Inv(c: Conversation) {
    && Numbered(c.messages, c.lastSeq)
    && DistinctIds(c.messages)
    && DistinctKeys(c.messages)
    && AllSound(c.messages)
  }

  // ── Sending ──────────────────────────────────────────────────────────────

  datatype Draft = Draft(
    id: MsgId,
    sender: Option<UserId>,
    kind: MessageKind,
    body: string,
    attachments: seq<Attachment>,
    replyTo: Option<MsgId>,
    clientId: string,
    at: Time)

  function NewRow(d: Draft, number: nat): Message {
    Message(d.id, number, number, d.sender, d.kind, d.body, d.attachments, d.replyTo, d.clientId, None, None, d.at)
  }

  /** No unique constraint stands in the way of this insert. */
  predicate Inserts(c: Conversation, d: Draft) {
    && IndexOf(c.messages, d.id) == |c.messages|
    && (d.clientId == "" || IndexOfKey(c.messages, d.clientId) == |c.messages|)
  }

  /** An authored line brings the thread back for everybody who had left it. */
  function Resurface(members: map<UserId, Participant>, sender: Option<UserId>): map<UserId, Participant> {
    if sender.None? then members else map u | u in members :: members[u].(leftAt := None)
  }

  function PostOnce(c: Conversation, d: Draft): Conversation {
    if Inserts(c, d) then
      c.(lastSeq := c.lastSeq + 1,
         messages := c.messages + [NewRow(d, c.lastSeq + 1)],
         members := Resurface(c.members, d.sender))
    else c
  }

  // ── Editing, deleting, erasing ───────────────────────────────────────────

  datatype Refusal = MessageGone | NotEditable | NotAuthor

  /** What an edit checks, on the copy its caller read before the lock. */
  function EditRefusal(copy: Message, editor: UserId, window: nat, at: Time): Option<Refusal> {
    if !copy.Live() then Some(MessageGone)
    else if !copy.kind.TextLine? then Some(NotEditable)
    else if copy.sender != Some(editor) then Some(NotAuthor)
    else if window > 0 && at - copy.createdAt > window then Some(NotEditable)
    else None
  }

  function EditedRow(m: Message, body: string, at: Time, revision: nat): Message {
    m.(body := body, editedAt := Some(at), revision := revision)
  }

  function DeletedRow(m: Message, at: Time, revision: nat): Message {
    m.(body := "", attachments := [], deletedAt := Some(at), revision := revision)
  }

  /** The locked half of an edit: only these three columns of the stored row are written. */
  function EditLocked(c: Conversation, id: MsgId, body: string, at: Time): Conversation {
    var i := IndexOf(c.messages, id);
    if i == |c.messages| then c
    else c.(lastSeq := c.lastSeq + 1,
            messages := c.messages[i := EditedRow(c.messages[i], body, at, c.lastSeq + 1)])
  }

  /** The locked half of a deletion. */
  function DeleteLocked(c: Conversation, id: MsgId, at: Time): Conversation {
    var i := IndexOf(c.messages, id);
    if i == |c.messages| then c
    else c.(lastSeq := c.lastSeq + 1,
            messages := c.messages[i := DeletedRow(c.messages[i], at, c.lastSeq + 1)])
  }

  predicate Mine(m: Message, user: UserId) {
    m.sender == Some(user) && m.Live()
  }

  function CountMine(rows: seq<Message>, user: UserId): (n: nat)
    ensures n <= |rows|
  {
    if rows == [] then 0
    else CountMine(rows[..|rows| - 1], user) + if Mine(rows[|rows| - 1], user) then 1 else 0
  }

  function Erased(m: Message, at: Time, revision: nat): Message {
    m.(body := "", attachments := [], sender := None, deletedAt := Some(at), revision := revision)
  }

  /** Every live row of the user becomes an anonymous tombstone, on consecutive revisions. */
  function EraseRows(rows: seq<Message>, user: UserId, at: Time, base: nat): (r: seq<Message>)
    ensures |r| == |rows|
  {
    if rows == [] then []
    else
      var n := |rows| - 1;
      EraseRows(rows[..n], user, at, base)
      + [if Mine(rows[n], user) then Erased(rows[n], at, base + CountMine(rows, user)) else rows[n]]
  }

  function EraseUser(c: Conversation, user: UserId, at: Time): Conversation {
    c.(lastSeq := c.lastSeq + CountMine(c.messages, user),
       messages := EraseRows(c.messages, user, at, c.lastSeq))
  }

  // ── Adopting the rows of another thread ──────────────────────────────────

  predicate TakenKey(rows: seq<Message>, clientId: string) {
    clientId != "" && IndexOfKey(rows, clientId) < |rows|
  }

  function Adopted(m: Message, taken: seq<Message>, number: nat): Message {
    m.(number := number, revision := number, clientId := if TakenKey(taken, m.clientId) then "" else m.clientId)
  }

  function AdoptRows(rows: seq<Message>, taken: seq<Message>, base: nat): (r: seq<Message>)
    ensures |r| == |rows|
    ensures forall i | 0 <= i < |rows| :: r[i] == Adopted(rows[i], taken, base + i + 1)
  {
    seq(|rows|, i requires 0 <= i < |rows| => Adopted(rows[i], taken, base + i + 1))
  }

  /** The surviving side of a fold: the other thread's rows are appended on fresh numbers, and its
      members join unless they already sit here. */
  function Adopt(c: Conversation, loser: Conversation): Conversation {
    c.(lastSeq := c.lastSeq + |loser.messages|,
       messages := c.messages + AdoptRows(loser.messages, c.messages, c.lastSeq),
       members := loser.members + c.members)
  }

  // ── One reader's own columns ─────────────────────────────────────────────

  function MarkRead(c: Conversation, user: UserId, upto: nat): Conversation {
    if user in c.members && c.members[user].lastRead < upto
    then c.(members := c.members[user := c.members[user].(lastRead := upto)])
    else c
  }

  function MarkDelivered(c: Conversation, user: UserId, upto: nat): Conversation {
    if user in c.members && c.members[user].lastDelivered < upto
    then c.(members := c.members[user := c.members[user].(lastDelivered := upto)])
    else c
  }

  const LEFT_MARKER := "chat.participant.left"

  function LeftLine(user: UserId, id: MsgId, at: Time): Draft {
    Draft(id, None, SystemLine, LEFT_MARKER + ":" + user, [], None, "", at)
  }

  /** Leaving hides the thread for one member and says so in the transcript, or does nothing. */
  function Leave(c: Conversation, user: UserId, id: MsgId, at: Time): Conversation {
    if user in c.members && c.members[user].leftAt.None? && Inserts(c, LeftLine(user, id, at))
    then PostOnce(c.(members := c.members[user := c.members[user].(leftAt := Some(at))]), LeftLine(user, id, at))
    else c
  }

  function Rejoin(c: Conversation, user: UserId): Conversation {
    if user in c.members then c.(members := c.members[user := c.members[user].(leftAt := None)]) else c
  }

  function Clear(c: Conversation, user: UserId, at: Time): Conversation {
    if user in c.members then c.(members := c.members[user := c.members[user].(clearedAt := Some(at))]) else c
  }

  // ── A merged account ─────────────────────────────────────────────────────

  function Renamed(who: Option<UserId>, from: UserId, into: UserId): Option<UserId> {
    if who == Some(from) then Some(into) else who
  }

  function RenameRows(rows: seq<Message>, from: UserId, into: UserId): (r: seq<Message>)
    ensures |r| == |rows|
    ensures forall i | 0 <= i < |rows| :: r[i] == rows[i].(sender := Renamed(rows[i].sender, from, into))
  {
    seq(|rows|, i requires 0 <= i < |rows| => rows[i].(sender := Renamed(rows[i].sender, from, into)))
  }

  function Max(a: nat, b: nat): nat {
    if a > b then a else b
  }

  /** The membership moves, or, where the survivor already sits, only its two markers are folded. */
  function RenameMembers(members: map<UserId, Participant>, from: UserId, into: UserId): map<UserId, Participant> {
    if from !in members then members
    else
      var guest := members[from];
      var moved := if into in members
        then members[into].(lastRead := Max(members[into].lastRead, guest.lastRead),
                            lastDelivered := Max(members[into].lastDelivered, guest.lastDelivered))
        else guest;
      (members - {from})[into := moved]
  }

  function Rename(c: Conversation, from: UserId, into: UserId): Conversation {
    c.(messages := RenameRows(c.messages, from, into),
       members := RenameMembers(c.members, from, into),
       operator := Renamed(c.operator, from, into))
  }

  // ── Steps and runs ───────────────────────────────────────────────────────

  datatype Op =
    | Posting(draft: Draft)
    | Editing(copy: Message, editor: UserId, text: string, window: nat, at: Time)
    | Deleting(copy: Message, actor: UserId, at: Time)
    | Erasing(user: UserId, at: Time)
    | Adopting(loser: Conversation)
    | Reading(user: UserId, upto: nat)
    | Receiving(user: UserId, upto: nat)
    | Leaving(user: UserId, line: MsgId, at: Time)
    | Rejoining(user: UserId)
    | Clearing(user: UserId, at: Time)
    | Renaming(from: UserId, into: UserId)

  function Apply(c: Conversation, op: Op): Conversation {
    match op
    case Posting(d) => PostOnce(c, d)
    case Editing(copy, editor, text, window, at) =>
      if EditRefusal(copy, editor, window, at).Some? then c else EditLocked(c, copy.id, text, at)
    case Deleting(copy, actor, at) =>
      if copy.sender != Some(actor) || !copy.Live() then c else DeleteLocked(c, copy.id, at)
    case Erasing(user, at) => EraseUser(c, user, at)
    case Adopting(loser) => Adopt(c, loser)
    case Reading(user, upto) => MarkRead(c, user, upto)
    case Receiving(user, upto) => MarkDelivered(c, user, upto)
    case Leaving(user, line, at) => Leave(c, user, line, at)
    case Rejoining(user) => Rejoin(c, user)
    case Clearing(user, at) => Clear(c, user, at)
    case Renaming(from, into) => Rename(c, from, into)
  }

  /** The stored row an id names, if any, is a text line. */
  predicate TextTarget(c: Conversation, id: MsgId) {
    var i := IndexOf(c.messages, id);
    i < |c.messages| ==> c.messages[i].kind.TextLine?
  }

  /** What the module's own callers guarantee. A copy read before the lock may be stale in every
      column that ever changes; its kind does not. Clocks do not run backwards. */
  ghost predicate Admissible(c: Conversation, op: Op) {
    match op
    case Posting(d) =>
      && d.at > EPOCH
      && (d.kind.TextLine? <==> d.sender.Some?)
      && (d.kind.SystemLine? ==> Trimmed(d.body))
    case Editing(copy, _, _, _, _) => copy.kind.TextLine? ==> TextTarget(c, copy.id)
    case Deleting(copy, _, _) => copy.sender.Some? && copy.Live() ==> TextTarget(c, copy.id)
    case Adopting(loser) =>
      && Inv(loser)
      && forall i, j | 0 <= i < |c.messages| && 0 <= j < |loser.messages| ::
           c.messages[i].id != loser.messages[j].id
    case Leaving(user, _, at) => Trimmed(user) && at > EPOCH
    case Clearing(user, at) =>
      user in c.members && c.members[user].clearedAt.Some? ==> c.members[user].clearedAt.value <= at
    case Renaming(from, into) => from != into
    case _ => true
  }

  /** The state after the first `|ops|` steps. */
  function Run(c: Conversation, ops: seq<Op>): Conversation {
    if ops == [] then c else Apply(Run(c, ops[..|ops| - 1]), ops[|ops| - 1])
  }

  ghost predicate AllAdmissible(c: Conversation, ops: seq<Op>) {
    forall i | 0 <= i < |ops| :: Admissible(Run(c, ops[..i]), ops[i])
  }

  /** Nobody merges this account away. */
  ghost predicate KeepsAccount(ops: seq<Op>, user: UserId) {
    forall i | 0 <= i < |ops| :: !(ops[i].Renaming? && ops[i].from == user)
  }

  // ── What every step keeps ────────────────────────────────────────────────

  /** A row's identity never moves, a tombstone stays one, a live row keeps its attachments, and any
      change lands on a revision nobody has seen; only a merge may touch the author without one. */
  ghost predicate RowMoves(m: Message, m': Message, last: nat) {
    && m'.id == m.id && m'.number == m.number && m'.kind == m.kind
    && m'.createdAt == m.createdAt && m'.clientId == m.clientId && m'.replyTo == m.replyTo
    && (m'.Live() ==> m.Live() && m'.attachments == m.attachments)
    && (m'.revision == m.revision ==> m' == m.(sender := m'.sender))
    && (m'.revision != m.revision ==> m'.revision > last && m'.revision > m.revision)
  }

  ghost predicate Grows(c: Conversation, c': Conversation) {
    && c.lastSeq <= c'.lastSeq && |c.messages| <= |c'.messages|
    && (forall i | 0 <= i < |c.messages| :: RowMoves(c.messages[i], c'.messages[i], c.lastSeq))
    && (forall i | |c.messages| <= i < |c'.messages| :: c'.messages[i].revision > c.lastSeq)
  }

  lemma GrowsTransitive(a: Conversation, b: Conversation, c: Conversation)
    requires Grows(a, b) && Grows(b, c)
    ensures Grows(a, c)
  {
    forall i | 0 <= i < |a.messages|
      ensures RowMoves(a.messages[i], c.messages[i], a.lastSeq)
    {
      assert RowMoves(a.messages[i], b.messages[i], a.lastSeq);
      assert RowMoves(b.messages[i], c.messages[i], b.lastSeq);
    }
    forall i | |a.messages| <= i < |c.messages|
      ensures c.messages[i].revision > a.lastSeq
    {
      if i < |b.messages| {
        assert RowMoves(b.messages[i], c.messages[i], b.lastSeq);
      }
    }
  }

  lemma AppendKeepsNumbers(rows: seq<Message>, last: nat, more: seq<Message>)
    requires Numbered(rows, last)
    requires forall i | 0 <= i < |more| :: more[i].number == more[i].revision == last + i + 1
    ensures Numbered(rows + more, last + |more|)
  {
    if more == [] {
      assert rows + more == rows;
    } else {
      var all := rows + more;
      forall i | 0 <= i < |all|
        ensures 1 <= all[i].number <= all[i].revision <= last + |more|
        ensures i >= |rows| ==> all[i].number == all[i].revision == last + (i - |rows|) + 1
        ensures i < |rows| ==> all[i] == rows[i] && all[i].revision <= last
      {
        assert all[i] == if i < |rows| then rows[i] else more[i - |rows|];
      }
      assert Top(all, last + |more|, |all| - 1);
    }
  }

  lemma AppendKeepsKeys(rows: seq<Message>, more: seq<Message>)
    requires DistinctIds(rows) && DistinctIds(more) && DistinctKeys(rows) && DistinctKeys(more)
    requires forall i, j | 0 <= i < |rows| && 0 <= j < |more| :: rows[i].id != more[j].id
    requires forall i, j | 0 <= i < |rows| && 0 <= j < |more| ::
      rows[i].clientId == more[j].clientId ==> rows[i].clientId == ""
    ensures DistinctIds(rows + more) && DistinctKeys(rows + more)
  {
    var all := rows + more;
    assert forall i | |rows| <= i < |all| :: all[i] == more[i - |rows|];
  }

  lemma ReplaceKeepsNumbers(rows: seq<Message>, last: nat, i: nat, m: Message)
    requires Numbered(rows, last) && i < |rows|
    requires m.number == rows[i].number && m.revision == last + 1
    ensures Numbered(rows[i := m], last + 1)
  {
    assert Top(rows[i := m], last + 1, i);
  }

  lemma ReplaceKeepsKeys(rows: seq<Message>, i: nat, m: Message)
    requires DistinctIds(rows) && DistinctKeys(rows) && i < |rows|
    requires m.id == rows[i].id && m.clientId == rows[i].clientId
    ensures DistinctIds(rows[i := m]) && DistinctKeys(rows[i := m])
  {
  }

  ghost predicate FreshKeys(rows: seq<Message>, more: seq<Message>) {
    forall i, j | 0 <= i < |rows| && 0 <= j < |more| :: rows[i].id != more[j].id
      && (rows[i].clientId == more[j].clientId ==> rows[i].clientId == "")
  }

  lemma AppendKeepsInv(c: Conversation, more: seq<Message>, members: map<UserId, Participant>)
    requires Inv(c)
    requires forall i | 0 <= i < |more| :: more[i].number == more[i].revision == c.lastSeq + i + 1
    requires DistinctIds(more) && DistinctKeys(more) && FreshKeys(c.messages, more) && AllSound(more)
    ensures var c' := c.(lastSeq := c.lastSeq + |more|, messages := c.messages + more, members := members);
      Inv(c') && Grows(c, c')
  {
    AppendKeepsNumbers(c.messages, c.lastSeq, more);
    AppendKeepsKeys(c.messages, more);
    assert AllSound(c.messages + more);
  }

  lemma ReplaceKeepsInv(c: Conversation, i: nat, m: Message)
    requires Inv(c) && i < |c.messages| && Sound(m) && m.revision == c.lastSeq + 1
    requires RowMoves(c.messages[i], m, c.lastSeq)
    ensures var c' := c.(lastSeq := c.lastSeq + 1, messages := c.messages[i := m]);
      Inv(c') && Grows(c, c')
  {
    ReplaceKeepsNumbers(c.messages, c.lastSeq, i, m);
    ReplaceKeepsKeys(c.messages, i, m);
    assert AllSound(c.messages[i := m]);
  }

  lemma InsertIsFresh(c: Conversation, d: Draft)
    requires Inserts(c, d)
    ensures FreshKeys(c.messages, [NewRow(d, c.lastSeq + 1)])
  {
  }

  lemma NewRowIsSound(c: Conversation, d: Draft, number: nat)
    requires Admissible(c, Posting(d))
    ensures Sound(NewRow(d, number))
  {
  }

  lemma PostKeepsInv(c: Conversation, d: Draft)
    requires Inv(c) && Admissible(c, Posting(d))
    ensures Inv(PostOnce(c, d)) && Grows(c, PostOnce(c, d))
  {
    if Inserts(c, d) {
      var more := [NewRow(d, c.lastSeq + 1)];
      assert FreshKeys(c.messages, more) by {
        InsertIsFresh(c, d);
      }
      assert AllSound(more) by {
        NewRowIsSound(c, d, c.lastSeq + 1);
      }
      assert PostOnce(c, d) == c.(lastSeq := c.lastSeq + |more|, messages := c.messages + more,
        members := Resurface(c.members, d.sender));
      AppendKeepsInv(c, more, Resurface(c.members, d.sender));
    }
  }

  lemma EditedRowIsSound(m: Message, last: nat, body: string, at: Time)
    requires Sound(m) && m.kind.TextLine? && m.revision <= last
    ensures Sound(EditedRow(m, body, at, last + 1)) && RowMoves(m, EditedRow(m, body, at, last + 1), last)
  {
  }

  lemma DeletedRowIsSound(m: Message, last: nat, at: Time)
    requires Sound(m) && m.kind.TextLine? && m.revision <= last
    ensures Sound(DeletedRow(m, at, last + 1)) && RowMoves(m, DeletedRow(m, at, last + 1), last)
  {
  }

  lemma EditKeepsInv(c: Conversation, id: MsgId, body: string, at: Time)
    requires Inv(c) && TextTarget(c, id)
    ensures Inv(EditLocked(c, id, body, at)) && Grows(c, EditLocked(c, id, body, at))
  {
    var i := IndexOf(c.messages, id);
    if i < |c.messages| {
      EditedRowIsSound(c.messages[i], c.lastSeq, body, at);
      var row := EditedRow(c.messages[i], body, at, c.lastSeq + 1);
      assert EditLocked(c, id, body, at) == c.(lastSeq := c.lastSeq + 1, messages := c.messages[i := row]);
      ReplaceKeepsInv(c, i, row);
    }
  }

  lemma DeleteKeepsInv(c: Conversation, id: MsgId, at: Time)
    requires Inv(c) && TextTarget(c, id)
    ensures Inv(DeleteLocked(c, id, at)) && Grows(c, DeleteLocked(c, id, at))
  {
    var i := IndexOf(c.messages, id);
    if i < |c.messages| {
      DeletedRowIsSound(c.messages[i], c.lastSeq, at);
      var row := DeletedRow(c.messages[i], at, c.lastSeq + 1);
      assert DeleteLocked(c, id, at) == c.(lastSeq := c.lastSeq + 1, messages := c.messages[i := row]);
      ReplaceKeepsInv(c, i, row);
    }
  }

  lemma {:induction false} CountMineMonotone(rows: seq<Message>, user: UserId, i: nat)
    requires i <= |rows|
    ensures CountMine(rows[..i], user) <= CountMine(rows, user)
    ensures i < |rows| && Mine(rows[i], user) ==> CountMine(rows[..i], user) < CountMine(rows, user)
  {
    if i == |rows| {
      assert rows[..i] == rows;
    } else {
      var front := rows[..|rows| - 1];
      CountMineMonotone(front, user, i);
      assert front[..i] == rows[..i];
    }
  }

  /** Row `i` is untouched, or is the tombstone whose revision counts the user's rows up to it. */
  lemma {:induction false} EraseRowsAt(rows: seq<Message>, user: UserId, at: Time, base: nat, i: nat)
    requires i < |rows|
    ensures EraseRows(rows, user, at, base)[i] ==
      if Mine(rows[i], user) then Erased(rows[i], at, base + CountMine(rows[..i + 1], user)) else rows[i]
  {
    var n := |rows| - 1;
    if i < n {
      EraseRowsAt(rows[..n], user, at, base, i);
      assert rows[..n][..i + 1] == rows[..i + 1];
    } else {
      assert rows[..i + 1] == rows;
    }
  }

  lemma CountMineStep(rows: seq<Message>, user: UserId, i: nat, j: nat)
    requires i < j < |rows| && Mine(rows[j], user)
    ensures CountMine(rows[..i + 1], user) < CountMine(rows[..j + 1], user)
  {
    CountMineMonotone(rows[..j + 1], user, j);
    CountMineMonotone(rows[..j], user, i + 1);
    assert rows[..j + 1][..j] == rows[..j] && rows[..j][..i + 1] == rows[..i + 1];
  }

  /** Each number of the reserved block is given to exactly the row that counts up to it. */
  lemma {:induction false} BlockIsCovered(rows: seq<Message>, user: UserId, k: nat) returns (i: nat)
    requires 1 <= k <= CountMine(rows, user)
    ensures i < |rows| && Mine(rows[i], user) && CountMine(rows[..i + 1], user) == k
  {
    var n := |rows| - 1;
    assert rows[..n + 1] == rows;
    if k <= CountMine(rows[..n], user) {
      i := BlockIsCovered(rows[..n], user, k);
      assert rows[..n][..i + 1] == rows[..i + 1];
    } else {
      i := n;
    }
  }

  /** What erasure makes of row `i`. */
  lemma ErasedRowMoves(c: Conversation, user: UserId, at: Time, i: nat)
    requires Inv(c) && i < |c.messages|
    ensures var rows, n := c.messages, CountMine(c.messages[..i + 1], user);
      var row := EraseUser(c, user, at).messages[i];
      && row == (if Mine(rows[i], user) then Erased(rows[i], at, c.lastSeq + n) else rows[i])
      && (Mine(rows[i], user) ==> 1 <= n <= CountMine(rows, user))
      && Sound(row) && RowMoves(rows[i], row, c.lastSeq)
  {
    var rows := c.messages;
    EraseRowsAt(rows, user, at, c.lastSeq, i);
    CountMineMonotone(rows, user, i + 1);
    CountMineMonotone(rows[..i + 1], user, i);
    assert Sound(rows[i]);
  }

  lemma ErasedRevision(c: Conversation, user: UserId, at: Time, i: nat)
    requires i < |c.messages|
    ensures var n := CountMine(c.messages[..i + 1], user);
      && EraseUser(c, user, at).messages[i].revision ==
         (if Mine(c.messages[i], user) then c.lastSeq + n else c.messages[i].revision)
      && (Mine(c.messages[i], user) ==> n >= 1)
  {
    EraseRowsAt(c.messages, user, at, c.lastSeq, i);
    CountMineMonotone(c.messages[..i + 1], user, i);
  }

  lemma ErasedRowsDiffer(c: Conversation, user: UserId, at: Time, i: nat, j: nat)
    requires Numbered(c.messages, c.lastSeq) && i < j < |c.messages|
    ensures EraseUser(c, user, at).messages[i].revision != EraseUser(c, user, at).messages[j].revision
  {
    ErasedRevision(c, user, at, i);
    ErasedRevision(c, user, at, j);
    if Mine(c.messages[i], user) && Mine(c.messages[j], user) {
      CountMineStep(c.messages, user, i, j);
    }
  }

  lemma ErasedTop(c: Conversation, user: UserId, at: Time) returns (i: nat)
    requires Inv(c) && c.messages != []
    ensures Top(EraseUser(c, user, at).messages, EraseUser(c, user, at).lastSeq, i)
  {
    if CountMine(c.messages, user) > 0 {
      i := BlockIsCovered(c.messages, user, CountMine(c.messages, user));
    } else {
      var top :| Top(c.messages, c.lastSeq, top);
      i := top;
    }
    ErasedRowMoves(c, user, at, i);
  }

  lemma EraseKeepsNumbers(c: Conversation, user: UserId, at: Time)
    requires Inv(c)
    ensures Numbered(EraseUser(c, user, at).messages, EraseUser(c, user, at).lastSeq)
  {
    var rows, c' := c.messages, EraseUser(c, user, at);
    forall i | 0 <= i < |rows|
      ensures c'.messages[i].number == rows[i].number <= c'.messages[i].revision <= c'.lastSeq
    {
      ErasedRowMoves(c, user, at, i);
    }
    forall i, j | 0 <= i < j < |rows|
      ensures c'.messages[i].revision != c'.messages[j].revision
    {
      ErasedRowsDiffer(c, user, at, i, j);
    }
    if rows != [] {
      var top := ErasedTop(c, user, at);
    }
  }

  lemma EraseKeepsInv(c: Conversation, user: UserId, at: Time)
    requires Inv(c)
    ensures Inv(EraseUser(c, user, at)) && Grows(c, EraseUser(c, user, at))
  {
    EraseKeepsNumbers(c, user, at);
    var c' := EraseUser(c, user, at);
    forall i | 0 <= i < |c.messages|
      ensures Sound(c'.messages[i]) && RowMoves(c.messages[i], c'.messages[i], c.lastSeq)
    {
      ErasedRowMoves(c, user, at, i);
    }
    assert DistinctIds(c'.messages) && DistinctKeys(c'.messages);
  }

  lemma AdoptedRowsAreFresh(c: Conversation, loser: Conversation)
    requires Admissible(c, Adopting(loser))
    ensures FreshKeys(c.messages, AdoptRows(loser.messages, c.messages, c.lastSeq))
  {
  }

  lemma AdoptKeepsInv(c: Conversation, loser: Conversation)
    requires Inv(c) && Admissible(c, Adopting(loser))
    ensures Inv(Adopt(c, loser)) && Grows(c, Adopt(c, loser))
  {
    var more := AdoptRows(loser.messages, c.messages, c.lastSeq);
    forall i | 0 <= i < |more|
      ensures Sound(more[i])
    {
      assert Sound(loser.messages[i]);
    }
    assert DistinctIds(more) && DistinctKeys(more);
    AdoptedRowsAreFresh(c, loser);
    assert Adopt(c, loser) == c.(lastSeq := c.lastSeq + |more|, messages := c.messages + more,
      members := loser.members + c.members);
    AppendKeepsInv(c, more, loser.members + c.members);
  }

  lemma RenameKeepsInv(c: Conversation, from: UserId, into: UserId)
    requires Inv(c)
    ensures Inv(Rename(c, from, into)) && Grows(c, Rename(c, from, into))
  {
    var c' := Rename(c, from, into);
    forall i | 0 <= i < |c.messages|
      ensures Sound(c'.messages[i]) && RowMoves(c.messages[i], c'.messages[i], c.lastSeq)
    {
      assert Sound(c.messages[i]);
    }
    if c.messages != [] {
      var i :| Top(c.messages, c.lastSeq, i);
      assert Top(c'.messages, c'.lastSeq, i);
    }
  }

  lemma LeftLineIsTrimmed(user: UserId)
    requires Trimmed(user)
    ensures Trimmed(LEFT_MARKER + ":" + user)
  {
    var body := LEFT_MARKER + ":" + user;
    assert body[0] == 'c';
    assert body[|body| - 1] == if user == "" then ':' else user[|user| - 1];
  }

  lemma MembersAloneKeepInv(c: Conversation, c': Conversation)
    requires Inv(c) && c'.messages == c.messages && c'.lastSeq == c.lastSeq
    ensures Inv(c') && Grows(c, c')
  {
  }

  lemma LeaveKeepsInv(c: Conversation, user: UserId, line: MsgId, at: Time)
    requires Inv(c) && Admissible(c, Leaving(user, line, at))
    ensures Inv(Leave(c, user, line, at)) && Grows(c, Leave(c, user, line, at))
  {
    var d := LeftLine(user, line, at);
    if user in c.members && c.members[user].leftAt.None? && Inserts(c, d) {
      var hidden := c.(members := c.members[user := c.members[user].(leftAt := Some(at))]);
      MembersAloneKeepInv(c, hidden);
      LeftLineIsTrimmed(user);
      PostKeepsInv(hidden, d);
      assert Leave(c, user, line, at) == PostOnce(hidden, d);
      GrowsTransitive(c, hidden, PostOnce(hidden, d));
    } else {
      MembersAloneKeepInv(c, c);
    }
  }

  /** Every step of every writer keeps the journal invariant, and only ever grows the journal. */
  lemma StepKeepsInv(c: Conversation, op: Op)
    requires Inv(c) && Admissible(c, op)
    ensures Inv(Apply(c, op)) && Grows(c, Apply(c, op))
  {
    match op {
      case Posting(d) => PostKeepsInv(c, d);
      case Editing(copy, editor, text, window, at) =>
        if EditRefusal(copy, editor, window, at).None? {
          EditKeepsInv(c, copy.id, text, at);
        } else {
          MembersAloneKeepInv(c, c);
        }
      case Deleting(copy, actor, at) =>
        if copy.sender == Some(actor) && copy.Live() {
          DeleteKeepsInv(c, copy.id, at);
        } else {
          MembersAloneKeepInv(c, c);
        }
      case Erasing(user, at) => EraseKeepsInv(c, user, at);
      case Adopting(loser) => AdoptKeepsInv(c, loser);
      case Renaming(from, into) => RenameKeepsInv(c, from, into);
      case Leaving(user, line, at) => LeaveKeepsInv(c, user, line, at);
      case _ => MembersAloneKeepInv(c, Apply(c, op));
    }
  }

  lemma {:induction false} RunKeepsInv(c: Conversation, ops: seq<Op>)
    requires Inv(c) && AllAdmissible(c, ops)
    ensures Inv(Run(c, ops)) && Grows(c, Run(c, ops))
  {
    if ops != [] {
      var n := |ops| - 1;
      RunPrefix(c, ops, n);
      RunKeepsInv(c, ops[..n]);
      StepKeepsInv(Run(c, ops[..n]), ops[n]);
      GrowsTransitive(c, Run(c, ops[..n]), Run(c, ops));
    }
  }

  /** The one assumption about copies, discharged: a copy read at any earlier state of the thread may
      be edited or deleted on, however stale it has become. */
  lemma EarlierCopyIsAdmissible(
    c: Conversation, c': Conversation, i: nat, user: UserId, text: string, window: nat, at: Time)
    requires Inv(c) && Inv(c') && Grows(c, c') && i < |c.messages|
    ensures Admissible(c', Editing(c.messages[i], user, text, window, at))
    ensures Admissible(c', Deleting(c.messages[i], user, at))
  {
    var copy := c.messages[i];
    assert RowMoves(copy, c'.messages[i], c.lastSeq);
    assert IndexOf(c'.messages, copy.id) == i;
    assert Sound(copy);
  }

  lemma RunPrefix(c: Conversation, ops: seq<Op>, n: nat)
    requires n <= |ops| && AllAdmissible(c, ops)
    ensures AllAdmissible(c, ops[..n])
  {
    assert forall i | 0 <= i < n :: ops[..n][..i] == ops[..i];
  }
}
