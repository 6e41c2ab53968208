/** The tables: a conversation with its message rows (in thread order) and its membership rows. */
module Rows {
  import opened Text

  type UserId = string
  type MsgId = nat
  type ConvId = nat
  type Time = int

  /** The floor a reader who never cleared anything is held at; every message is later. */
  const EPOCH: Time := 0

  datatype MessageKind = TextLine | SystemLine

  /** A stored attachment: a bare key from before descriptors, a descriptor, or anything else. */
  datatype Attachment =
    | Bare(text: string)
    | Descriptor(key: Option<string>, mediaType: Option<string>)
    | Other

  datatype Message = Message(
    id: MsgId,
    number: nat,      // `seq`: the place in the thread
    revision: nat,    // `rev_seq`: the place in the journal of changes
    sender: Option<UserId>,
    kind: MessageKind,
    body: string,
    attachments: seq<Attachment>,
    replyTo: Option<MsgId>,
    clientId: string,
    editedAt: Option<Time>,
    deletedAt: Option<Time>,
    createdAt: Time)
  {
    predicate Live() {
      deletedAt.None?
    }
  }

  /** Live text lines have an author and system lines have none; a system line is a trimmed marker. */
  predicate Drawable(m: Message) {
    && (m.Live() ==> (m.sender.Some? <==> m.kind.TextLine?))
    && (m.kind.SystemLine? ==> Trimmed(m.body))
  }

  datatype Role = Member | Operator

  datatype Participant = Participant(
    role: Role,
    lastRead: nat,
    lastDelivered: nat,
    leftAt: Option<Time>,
    clearedAt: Option<Time>)

  datatype ConversationKind = Direct | Group | Support

  datatype Conversation = Conversation(
    kind: ConversationKind,
    scope: string,
    directKey: string,
    subjectType: string,
    subjectKey: string,
    operator: Option<UserId>,
    lastSeq: nat,
    messages: seq<Message>,
    members: map<UserId, Participant>)

  /** The CDN reference an attachment claims, if any. */
  function RefOf(a: Attachment): set<string> {
    var key := match a
      case Bare(text) => text
      case Descriptor(Some(key), _) => key
      case _ => "";
    if Strip(key) == "" then {} else {Strip(key)}
  }

  /** The references an attachment list claims. */
  function Refs(attachments: seq<Attachment>): set<string> {
    if attachments == [] then {} else RefOf(attachments[0]) + Refs(attachments[1..])
  }

  /** What this attachment is stored under, stripped, is this reference. */
  predicate StoredUnder(a: Attachment, ref: string) {
    || (a.Bare? && Strip(a.text) == ref)
    || (a.Descriptor? && a.key.Some? && Strip(a.key.value) == ref)
  }

  /** Some attachment of the list is stored under this reference. */
  predicate Carried(attachments: seq<Attachment>, ref: string) {
    ref != "" && exists i | 0 <= i < |attachments| :: StoredUnder(attachments[i], ref)
  }

  /** An attachment list claims exactly the keys its descriptors and bare strings carry. */
  lemma {:induction false} RefsAreTheKeys(attachments: seq<Attachment>, ref: string)
    ensures ref in Refs(attachments) <==> Carried(attachments, ref)
  {
    if attachments != [] {
      var rest := attachments[1..];
      RefsAreTheKeys(rest, ref);
      assert ref in RefOf(attachments[0]) <==> ref != "" && StoredUnder(attachments[0], ref);
      if Carried(rest, ref) {
        var i :| 0 <= i < |rest| && StoredUnder(rest[i], ref);
        assert StoredUnder(attachments[i + 1], ref);
      }
      if Carried(attachments, ref) && !StoredUnder(attachments[0], ref) {
        var i :| 0 <= i < |attachments| && StoredUnder(attachments[i], ref);
        assert StoredUnder(rest[i - 1], ref);
      }
    }
  }

  /** Position of the row with this id, or the length when there is none. */
  function IndexOf(rows: seq<Message>, id: MsgId): (i: nat)
    ensures i <= |rows|
    ensures i < |rows| ==> rows[i].id == id
    ensures forall j | 0 <= j < i :: rows[j].id != id
  {
    if rows == [] || rows[0].id == id then 0 else 1 + IndexOf(rows[1..], id)
  }

  /** Position of the row a sender's idempotency key names, or the length when there is none. */
  function IndexOfKey(rows: seq<Message>, clientId: string): (i: nat)
    ensures i <= |rows|
    ensures i < |rows| ==> rows[i].clientId == clientId
    ensures forall j | 0 <= j < i :: rows[j].clientId != clientId
  {
    if rows == [] || rows[0].clientId == clientId then 0 else 1 + IndexOfKey(rows[1..], clientId)
  }

  /** A reader's own floor: everything created at or before a mark is off their list. */
  predicate VisibleAt(m: Message, cleared: Option<Time>) {
    cleared.None? || m.createdAt > cleared.value
  }

  /** `visible_messages`: the rows the holder of this mark is served. */
  function Visible(rows: seq<Message>, cleared: Option<Time>): seq<Message> {
    if rows == [] then []
    else
      var n := |rows| - 1;
      Visible(rows[..n], cleared) + if VisibleAt(rows[n], cleared) then [rows[n]] else []
  }

  lemma {:induction false} VisibleIsExact(rows: seq<Message>, cleared: Option<Time>, m: Message)
    ensures m in Visible(rows, cleared) <==> m in rows && VisibleAt(m, cleared)
  {
    if rows != [] {
      var n := |rows| - 1;
      VisibleIsExact(rows[..n], cleared, m);
      assert rows == rows[..n] + [rows[n]];
    }
  }
}
