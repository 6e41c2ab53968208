/** Every shape a stored message leaves the module in, and why a deletion is final even when an
    edit or a second deletion acts on a copy read before the lock. */
module Tombstones {
  import opened Text
  import opened Rows
  import opened Journal
  import opened Readers
  import Search

  // ── Projections ──────────────────────────────────────────────────────────

  datatype Payload = Payload(
    id: MsgId,
    sender: Option<UserId>,
    number: nat,
    revision: nat,
    kind: MessageKind,
    body: string,
    replyTo: Option<MsgId>,
    attachments: seq<Attachment>,
    clientId: Option<string>,
    edited: bool,
    editedAt: Option<Time>,
    deleted: bool,
    deletedAt: Option<Time>,
    createdAt: Time)

  /** The one wire shape: the journal frame, the replayed row, the outbox event. */
  function MessagePayload(m: Message): Payload {
    Payload(m.id, m.sender, m.number, m.revision, m.kind,
      if m.Live() then m.body else "",
      m.replyTo,
      if m.Live() then m.attachments else [],
      if m.clientId == "" then None else Some(m.clientId),
      m.editedAt.Some?, m.editedAt, !m.Live(), m.deletedAt, m.createdAt)
  }

  function AttachmentType(a: Attachment): string {
    match a
    case Descriptor(_, Some(kind)) => if kind == "" then "file" else kind
    case _ => "file"
  }

  /** Distinct attachment types in order of appearance, and how many attachments there are. */
  function AttachmentMarks(attachments: seq<Attachment>, deleted: bool): (seq<string>, nat) {
    if deleted || attachments == [] then ([], 0)
    else
      var n := |attachments| - 1;
      var (types, count) := AttachmentMarks(attachments[..n], false);
      var kind := AttachmentType(attachments[n]);
      (if kind in types then types else types + [kind], count + 1)
  }

  /** A descriptor is of the type it was stored with; what was stored without one is a file. */
  predicate IsOfType(a: Attachment, kind: string) {
    if a.Descriptor? && a.mediaType.Some? && a.mediaType != Some("") then a.mediaType == Some(kind) else kind == "file"
  }

  /** No attachment before this one is of its type. */
  predicate OpensItsType(attachments: seq<Attachment>, i: int) {
    0 <= i < |attachments| && forall j | 0 <= j < i :: AttachmentType(attachments[j]) != AttachmentType(attachments[i])
  }

  /** The marks of a live row count its attachments, and name each of their types once, in the order in which
      the types first appear. */
  lemma {:induction false} MarksNameEachTypeOnce(attachments: seq<Attachment>) returns (firsts: seq<nat>)
    ensures var (types, count) := AttachmentMarks(attachments, false);
      && count == |attachments| && |firsts| == |types|
      && (forall k | 0 <= k < |types| ::
            OpensItsType(attachments, firsts[k]) && types[k] == AttachmentType(attachments[firsts[k]])
            && IsOfType(attachments[firsts[k]], types[k]))
      && (forall j, k | 0 <= j < k < |firsts| :: firsts[j] < firsts[k])
      && (forall i: nat :: OpensItsType(attachments, i) ==> i in firsts)
  {
    firsts := [];
    if attachments != [] {
      var n := |attachments| - 1;
      firsts := MarksNameEachTypeOnce(attachments[..n]);
      forall i | 0 <= i < n
        ensures OpensItsType(attachments, i) <==> OpensItsType(attachments[..n], i)
      {
      }
      var (types, count) := AttachmentMarks(attachments[..n], false);
      TypeIsNamed(attachments[..n], types, firsts, AttachmentType(attachments[n]));
      if AttachmentType(attachments[n]) !in types {
        firsts := firsts + [n];
      }
    }
  }

  lemma {:induction false} FirstOfType(attachments: seq<Attachment>, i: nat) returns (first: nat)
    requires i < |attachments|
    ensures OpensItsType(attachments, first) && AttachmentType(attachments[first]) == AttachmentType(attachments[i])
  {
    if j: nat :| j < i && AttachmentType(attachments[j]) == AttachmentType(attachments[i]) {
      first := FirstOfType(attachments, j);
    } else {
      first := i;
    }
  }

  lemma TypeIsNamed(attachments: seq<Attachment>, types: seq<string>, firsts: seq<nat>, kind: string)
    requires |firsts| == |types|
    requires forall k | 0 <= k < |types| ::
      OpensItsType(attachments, firsts[k]) && types[k] == AttachmentType(attachments[firsts[k]])
    requires forall i: nat :: OpensItsType(attachments, i) ==> i in firsts
    ensures kind in types <==> exists i :: 0 <= i < |attachments| && AttachmentType(attachments[i]) == kind
  {
    if kind in types {
      var k :| 0 <= k < |types| && types[k] == kind;
      assert AttachmentType(attachments[firsts[k]]) == kind;
    }
    if i: nat :| i < |attachments| && AttachmentType(attachments[i]) == kind {
      var first := FirstOfType(attachments, i);
      var k :| 0 <= k < |firsts| && firsts[k] == first;
      assert types[k] == kind;
    }
  }

  datatype LastLine = LastLine(
    number: nat,
    kind: MessageKind,
    sender: Option<UserId>,
    createdAt: Time,
    drawn: Option<string>,
    reason: Option<Search.Reason>,
    types: seq<string>,
    count: nat)

  function LastLineOf(labels: Search.Labels, m: Message): LastLine {
    var deleted := !m.Live();
    var (types, count) := AttachmentMarks(m.attachments, deleted);
    LastLine(m.number, m.kind, m.sender, m.createdAt,
      Search.DrawnLastLine(labels, m.kind, m.body, deleted),
      Search.LastLineReason(labels, m.kind, m.body, deleted, m.attachments != []),
      types, count)
  }

  datatype Moderated = TargetNotFound | Target(text: string, media: seq<Attachment>, author: Option<UserId>)

  function ModerationContent(m: Message): Moderated {
    if m.Live() then Target(m.body, m.attachments, m.sender) else TargetNotFound
  }

  /** A tombstone shows nothing anybody wrote, and what it does show does not depend on what the
      row still holds. */
  lemma TombstoneShowsNothing(labels: Search.Labels, m: Message, body: string, attachments: seq<Attachment>)
    requires !m.Live()
    ensures MessagePayload(m).body == "" && MessagePayload(m).attachments == [] && MessagePayload(m).deleted
    ensures LastLineOf(labels, m).drawn == None && LastLineOf(labels, m).reason == Some(Search.DeletedLine)
    ensures LastLineOf(labels, m).count == 0
    ensures ModerationContent(m) == TargetNotFound
    ensures forall viewer :: !FromOthers(m, viewer)
    ensures var m' := m.(body := body, attachments := attachments);
      && MessagePayload(m') == MessagePayload(m)
      && LastLineOf(labels, m') == LastLineOf(labels, m)
      && ModerationContent(m') == ModerationContent(m)
  {
  }

  /** A live row draws its words stripped, counts all its attachments, keeps its place, author and time, and
      is moderated on what it says. */
  lemma LiveRowShowsItself(labels: Search.Labels, m: Message)
    requires m.Live()
    ensures var line := LastLineOf(labels, m);
      && line.number == m.number && line.kind == m.kind && line.sender == m.sender && line.createdAt == m.createdAt
      && (m.kind.TextLine? ==> line.drawn == if Strip(m.body) == "" then None else Some(Strip(m.body)))
      && (line.drawn.Some? ==> line.reason.None?)
      && line.count == |m.attachments|
    ensures ModerationContent(m) == Target(m.body, m.attachments, m.sender)
  {
    var firsts := MarksNameEachTypeOnce(m.attachments);
  }

  // ── Finality ─────────────────────────────────────────────────────────────

  /** Over every run, with edits and deletions acting on copies as stale as they come: a deleted row
      stays deleted where it is, its revision only climbs, and nothing written to it is ever shown. */
  lemma TombstonesAreFinal(c: Conversation, ops: seq<Op>, i: nat, labels: Search.Labels)
    requires Inv(c) && AllAdmissible(c, ops) && i < |c.messages| && !c.messages[i].Live()
    ensures i < |Run(c, ops).messages|
    ensures var m, m' := c.messages[i], Run(c, ops).messages[i];
      && m'.id == m.id && m'.number == m.number && !m'.Live()
      && m'.revision >= m.revision
      && MessagePayload(m').body == "" && MessagePayload(m').attachments == []
      && LastLineOf(labels, m').drawn == None && ModerationContent(m') == TargetNotFound
      && m'.attachments == []
  {
    RunKeepsInv(c, ops);
    var m, m' := c.messages[i], Run(c, ops).messages[i];
    assert RowMoves(m, m', c.lastSeq);
    TombstoneShowsNothing(labels, m', "", []);
    assert Sound(m');
  }

  /** A step that changes what a row shows stamps it above every number handed out before. */
  lemma VisibleChangesClimb(c: Conversation, op: Op, i: nat)
    requires Inv(c) && Admissible(c, op) && i < |c.messages|
    ensures i < |Apply(c, op).messages|
    ensures var m, m' := c.messages[i], Apply(c, op).messages[i];
      && m'.revision >= m.revision
      && (MessagePayload(m').(sender := None) != MessagePayload(m).(sender := None) ==>
          m'.revision > c.lastSeq >= m.revision)
  {
    StepKeepsInv(c, op);
    assert RowMoves(c.messages[i], Apply(c, op).messages[i], c.lastSeq);
  }

  /** An edit that was allowed on its stale copy lands on the tombstone: the words are stored and
      the row stays deleted. */
  lemma StaleEditLandsOnTombstone(
    c: Conversation, copy: Message, editor: UserId, body: string, window: nat, at: Time, i: nat)
    requires Inv(c) && i < |c.messages| && c.messages[i].id == copy.id && !c.messages[i].Live()
    requires EditRefusal(copy, editor, window, at).None?
    ensures var m' := Apply(c, Editing(copy, editor, body, window, at)).messages[i];
      !m'.Live() && m'.body == body && m'.revision == c.lastSeq + 1 && MessagePayload(m').body == ""
  {
    assert IndexOf(c.messages, copy.id) == i;
  }

  /** The frame an edit pushes is built from its own copy, not from the stored row. It shows what a
      replay would show exactly when, since the copy was read, nobody deleted the message and no
      merge renamed its author. */
  lemma EditFrameIsFaithfulIff(
    c: Conversation, ops: seq<Op>, i: nat, editor: UserId, body: string, window: nat, at: Time)
    requires Inv(c) && AllAdmissible(c, ops) && i < |c.messages|
    requires EditRefusal(c.messages[i], editor, window, at).None?
    ensures i < |Run(c, ops).messages|
    ensures var copy, now := c.messages[i], Run(c, ops);
      var c' := EditLocked(now, copy.id, body, at);
      var frame := MessagePayload(EditedRow(copy, body, at, c'.lastSeq));
      frame == MessagePayload(c'.messages[i]) <==> now.messages[i].Live() && now.messages[i].sender == copy.sender
  {
    RunKeepsInv(c, ops);
    var copy, now := c.messages[i], Run(c, ops);
    assert RowMoves(copy, now.messages[i], c.lastSeq);
    assert IndexOf(now.messages, copy.id) == i;
  }

  /** So is the frame a deletion pushes. It shows what a replay would show exactly when, since the
      copy was read, no edit stamped the row and neither an erasure nor a merge took its author. */
  lemma DeleteFrameIsFaithfulIff(c: Conversation, ops: seq<Op>, i: nat, actor: UserId, at: Time)
    requires Inv(c) && AllAdmissible(c, ops) && i < |c.messages|
    requires c.messages[i].sender == Some(actor) && c.messages[i].Live()
    ensures i < |Run(c, ops).messages|
    ensures var copy, now := c.messages[i], Run(c, ops);
      var c' := Apply(now, Deleting(copy, actor, at));
      var frame := MessagePayload(DeletedRow(copy, at, c'.lastSeq));
      i < |c'.messages| &&
      (frame == MessagePayload(c'.messages[i]) <==>
        now.messages[i].editedAt == copy.editedAt && now.messages[i].sender == copy.sender)
  {
    RunKeepsInv(c, ops);
    var copy, now := c.messages[i], Run(c, ops);
    assert RowMoves(copy, now.messages[i], c.lastSeq);
    assert IndexOf(now.messages, copy.id) == i;
  }
}
