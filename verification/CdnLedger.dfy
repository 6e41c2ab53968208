/** The claims this module publishes to the media store, against what its rows carry. An event says
    which references one message held before and holds now. */
module CdnLedger {
  import opened Text
  import opened Rows
  import opened Journal
  import opened Store
  import opened Merge
  import opened Gdpr

  type Claims = map<MsgId, set<string>>

  datatype Sync = Sync(id: MsgId, before: set<string>, after: set<string>)

  function Claimed(claims: Claims, id: MsgId): set<string> {
    if id in claims then claims[id] else {}
  }

  /** The media store drops what the event gave up and adds what it took on. */
  function Applied(claims: Claims, e: Sync): Claims {
    claims[e.id := Claimed(claims, e.id) - (e.before - e.after) + (e.after - e.before)]
  }

  function Publish(claims: Claims, events: seq<Sync>): Claims {
    if events == [] then claims else Applied(Publish(claims, events[..|events| - 1]), events[|events| - 1])
  }

  // ── Events ───────────────────────────────────────────────────────────────

  datatype Occasion = Removal | ErasureOf(user: UserId) | Backfill

  /** What one row publishes, if it carries anything. */
  function Emit(m: Message, why: Occasion): seq<Sync> {
    var refs := Refs(m.attachments);
    if refs == {} then []
    else
      match why
      case Removal => [Sync(m.id, refs, {})]
      case ErasureOf(user) => if Mine(m, user) then [Sync(m.id, refs, {})] else []
      case Backfill => if m.Live() then [Sync(m.id, {}, refs)] else []
  }

  function EmitAll(rows: seq<Message>, why: Occasion): seq<Sync> {
    if rows == [] then []
    else EmitAll(rows[..|rows| - 1], why) + Emit(rows[|rows| - 1], why)
  }

  /** A release is read off the copy the deletion was called with. */
  function Released(c: Conversation, copy: Message, actor: UserId): seq<Sync> {
    if copy.sender != Some(actor) || !copy.Live() || IndexOf(c.messages, copy.id) == |c.messages| then []
    else [Sync(copy.id, Refs(copy.attachments), {})]
  }

  function ThreadEvents(c: Conversation, op: Op): seq<Sync> {
    match op
    case Posting(d) => if Inserts(c, d) then [Sync(d.id, {}, Refs(d.attachments))] else []
    case Deleting(copy, actor, _) => Released(c, copy, actor)
    case Erasing(user, _) => EmitAll(c.messages, ErasureOf(user))
    case _ => []
  }

  // ── The steps of the whole system ────────────────────────────────────────

  datatype Step =
    | OnThread(thread: ConvId, op: Op)
    | Opening(thread: ConvId, conversation: Conversation)
    | Moving(from: UserId, into: UserId)
    | Requalifying(thread: ConvId)
    | Unseating(user: UserId)
    | Dropping(thread: ConvId)
    | Backfilling(table: seq<Message>)

  datatype System = System(db: Db, claims: Claims)

  ghost function NextDb(db: Db, step: Step): Db {
    match step
    case OnThread(k, op) => if k in db then db[k := Apply(db[k], op)] else db
    case Opening(k, c) => if k in db then db else db[k := c]
    case Moving(from, into) => Moved(db, from, into)
    case Requalifying(k) => if k in db then Requalify(db, k) else db
    case Unseating(user) => UnseatEverywhere(db, user)
    case Dropping(k) => db - {k}
    case Backfilling(_) => db
  }

  ghost function Events(db: Db, step: Step): seq<Sync> {
    match step
    case OnThread(k, op) => if k in db then ThreadEvents(db[k], op) else []
    case Requalifying(k) => if k in db && FateOf(db, k).Dead? then EmitAll(db[k].messages, Removal) else []
    case Dropping(k) => if k in db then EmitAll(db[k].messages, Removal) else []
    case Backfilling(table) => EmitAll(table, Backfill)
    case _ => []
  }

  ghost function Next(s: System, step: Step): System {
    System(NextDb(s.db, step), Publish(s.claims, Events(s.db, step)))
  }

  ghost function Play(s: System, steps: seq<Step>): System {
    if steps == [] then s else Next(Play(s, steps[..|steps| - 1]), steps[|steps| - 1])
  }

  // ── Publishing, id by id ─────────────────────────────────────────────────

  ghost predicate Silent(events: seq<Sync>, id: MsgId) {
    forall i | 0 <= i < |events| :: events[i].id != id
  }

  lemma {:induction false} SilentIdsStay(claims: Claims, events: seq<Sync>, id: MsgId)
    requires Silent(events, id)
    ensures Claimed(Publish(claims, events), id) == Claimed(claims, id)
  {
    if events != [] {
      SilentIdsStay(claims, events[..|events| - 1], id);
    }
  }

  lemma {:induction false} PublishConcat(claims: Claims, a: seq<Sync>, b: seq<Sync>)
    ensures Publish(claims, a + b) == Publish(Publish(claims, a), b)
  {
    if b == [] {
      assert a + b == a;
    } else {
      var n := |b| - 1;
      assert (a + b)[..|a| + n] == a + b[..n];
      PublishConcat(claims, a, b[..n]);
    }
  }

  lemma {:induction false} EmitsOwnIds(rows: seq<Message>, why: Occasion, id: MsgId)
    requires forall i | 0 <= i < |rows| :: rows[i].id != id
    ensures Silent(EmitAll(rows, why), id)
  {
    if rows != [] {
      EmitsOwnIds(rows[..|rows| - 1], why, id);
    }
  }

  lemma {:induction false} SameClaimSameEffect(one: Claims, two: Claims, events: seq<Sync>, id: MsgId)
    requires Claimed(one, id) == Claimed(two, id)
    ensures Claimed(Publish(one, events), id) == Claimed(Publish(two, events), id)
  {
    if events != [] {
      SameClaimSameEffect(one, two, events[..|events| - 1], id);
    }
  }

  lemma SilentPartsDrop(claims: Claims, a: seq<Sync>, b: seq<Sync>, id: MsgId)
    ensures Silent(b, id) ==> Claimed(Publish(claims, a + b), id) == Claimed(Publish(claims, a), id)
    ensures Silent(a, id) ==> Claimed(Publish(claims, a + b), id) == Claimed(Publish(claims, b), id)
  {
    PublishConcat(claims, a, b);
    if Silent(b, id) {
      SilentIdsStay(Publish(claims, a), b, id);
    }
    if Silent(a, id) {
      SilentIdsStay(claims, a, id);
      SameClaimSameEffect(Publish(claims, a), claims, b, id);
    }
  }

  /** In one pass over rows with distinct ids, each id hears only its own row. */
  lemma {:induction false} EachRowSpeaksOnce(claims: Claims, rows: seq<Message>, why: Occasion, i: nat)
    requires DistinctIds(rows) && i < |rows|
    ensures Claimed(Publish(claims, EmitAll(rows, why)), rows[i].id) ==
      Claimed(Publish(claims, Emit(rows[i], why)), rows[i].id)
  {
    var n := |rows| - 1;
    var front, last := EmitAll(rows[..n], why), Emit(rows[n], why);
    assert EmitAll(rows, why) == front + last;
    SilentPartsDrop(claims, front, last, rows[i].id);
    if i < n {
      EachRowSpeaksOnce(claims, rows[..n], why, i);
      assert Silent(last, rows[i].id);
    } else {
      EmitsOwnIds(rows[..n], why, rows[i].id);
    }
  }

  // ── The books ────────────────────────────────────────────────────────────

  /** `legacy` rows were stored before sends published anything: they may be claimed short, never
      over. */
  ghost predicate Fits(claims: Claims, m: Message, legacy: bool) {
    && Claimed(claims, m.id) <= Refs(m.attachments)
    && (!legacy ==> Claimed(claims, m.id) == Refs(m.attachments))
  }

  ghost predicate ThreadFits(claims: Claims, c: Conversation, legacy: bool) {
    forall i | 0 <= i < |c.messages| :: Fits(claims, c.messages[i], legacy)
  }

  ghost predicate Balanced(s: System, legacy: bool) {
    && (forall k | k in s.db :: ThreadFits(s.claims, s.db[k], legacy))
    && (forall id :: Stored(s.db, id) || Claimed(s.claims, id) == {})
  }

  ghost predicate Tidy(db: Db) {
    (forall k | k in db :: Inv(db[k])) && AllApart(db)
  }

  /** The copy a deletion acts on may be stale, but a live row still has the attachments it had. */
  ghost predicate PastCopy(c: Conversation, copy: Message) {
    forall i | 0 <= i < |c.messages| && c.messages[i].id == copy.id && c.messages[i].Live() ::
      c.messages[i].attachments == copy.attachments
  }

  ghost predicate Fresh(db: Db, op: Op) {
    match op
    case Posting(d) => !Stored(db, d.id)
    case Leaving(_, line, _) => !Stored(db, line)
    case _ => true
  }

  ghost predicate InStore(db: Db, m: Message) {
    exists k :: k in db && m in db[k].messages
  }

  /** Every live row of the store, each id once. */
  ghost predicate IsTable(db: Db, table: seq<Message>) {
    && DistinctIds(table)
    && (forall k, i | k in db && 0 <= i < |db[k].messages| && db[k].messages[i].Live() :: db[k].messages[i] in table)
    && (forall i | 0 <= i < |table| :: table[i].Live() && InStore(db, table[i]))
  }

  ghost predicate Permitted(db: Db, step: Step) {
    match step
    case OnThread(k, op) =>
      k in db ==>
        && Admissible(db[k], op) && !op.Adopting? && Fresh(db, op)
        && (op.Deleting? ==> PastCopy(db[k], op.copy))
    case Opening(k, c) => c.messages == [] && c.lastSeq == 0
    case Backfilling(table) => IsTable(db, table)
    case _ => true
  }

  // ── One thread ───────────────────────────────────────────────────────────

  lemma EventsAreItsOwn(c: Conversation, op: Op, id: MsgId)
    requires Absent(c, id) && Absent(Apply(c, op), id)
    ensures Silent(ThreadEvents(c, op), id)
  {
    match op {
      case Posting(d) =>
        if Inserts(c, d) {
          assert Apply(c, op).messages[|c.messages|].id == d.id;
        }
      case Erasing(user, _) => EmitsOwnIds(c.messages, ErasureOf(user), id);
      case _ =>
    }
  }

  lemma DeletionFits(claims: Claims, c: Conversation, copy: Message, actor: UserId, at: Time, legacy: bool, i: nat)
    requires Inv(c) && i < |c.messages| && Fits(claims, c.messages[i], legacy) && PastCopy(c, copy)
    ensures var op := Deleting(copy, actor, at);
      Fits(Publish(claims, ThreadEvents(c, op)), Apply(c, op).messages[i], legacy)
  {
    var op := Deleting(copy, actor, at);
    var m := c.messages[i];
    assert Sound(m);
    if Released(c, copy, actor) != [] && m.id == copy.id {
      assert Apply(c, op).messages[i].attachments == [];
    } else {
      SilentIdsStay(claims, ThreadEvents(c, op), m.id);
    }
  }

  lemma ErasedClaim(claims: Claims, m: Message, user: UserId, legacy: bool)
    requires Fits(claims, m, legacy)
    ensures Claimed(Publish(claims, Emit(m, ErasureOf(user))), m.id) ==
      if Mine(m, user) then {} else Claimed(claims, m.id)
  {
  }

  lemma ErasedCargo(c: Conversation, user: UserId, at: Time, i: nat)
    requires i < |c.messages|
    ensures var m, m' := c.messages[i], EraseUser(c, user, at).messages[i];
      m'.id == m.id && m'.attachments == if Mine(m, user) then [] else m.attachments
  {
    EraseRowsAt(c.messages, user, at, c.lastSeq, i);
  }

  lemma ErasureFits(claims: Claims, rows: seq<Message>, user: UserId, legacy: bool, i: nat, m': Message)
    requires DistinctIds(rows) && i < |rows| && Fits(claims, rows[i], legacy)
    requires m'.id == rows[i].id && m'.attachments == if Mine(rows[i], user) then [] else rows[i].attachments
    ensures Fits(Publish(claims, EmitAll(rows, ErasureOf(user))), m', legacy)
  {
    EachRowSpeaksOnce(claims, rows, ErasureOf(user), i);
    ErasedClaim(claims, rows[i], user, legacy);
  }

  lemma PostingFits(claims: Claims, c: Conversation, d: Draft, legacy: bool, i: nat)
    requires ThreadFits(claims, c, legacy) && i < |PostOnce(c, d).messages|
    requires Absent(c, d.id) && Claimed(claims, d.id) == {}
    ensures Fits(Publish(claims, ThreadEvents(c, Posting(d))), PostOnce(c, d).messages[i], legacy)
  {
    if i < |c.messages| {
      assert Fits(claims, c.messages[i], legacy);
      SilentIdsStay(claims, ThreadEvents(c, Posting(d)), c.messages[i].id);
    }
  }

  predicate Quiet(op: Op) {
    !op.Posting? && !op.Deleting? && !op.Erasing? && !op.Adopting?
  }

  lemma QuietRow(c: Conversation, op: Op, i: nat)
    requires Quiet(op) && i < |Apply(c, op).messages|
    ensures var m' := Apply(c, op).messages[i];
      if i < |c.messages| then m'.id == c.messages[i].id && m'.attachments == c.messages[i].attachments
      else op.Leaving? && m'.id == op.line && m'.attachments == []
  {
  }

  lemma QuietFits(claims: Claims, c: Conversation, op: Op, legacy: bool, i: nat)
    requires Quiet(op) && i < |Apply(c, op).messages| && ThreadFits(claims, c, legacy)
    requires op.Leaving? ==> Claimed(claims, op.line) == {}
    ensures Fits(claims, Apply(c, op).messages[i], legacy)
  {
    QuietRow(c, op, i);
    if i < |c.messages| {
      assert Fits(claims, c.messages[i], legacy);
    }
  }

  ghost predicate Unclaimed(claims: Claims, op: Op) {
    match op
    case Posting(d) => Claimed(claims, d.id) == {}
    case Leaving(_, line, _) => Claimed(claims, line) == {}
    case _ => true
  }

  lemma ThreadKeepsBooks(claims: Claims, c: Conversation, op: Op, legacy: bool)
    requires Inv(c) && ThreadFits(claims, c, legacy) && Unclaimed(claims, op) && !op.Adopting?
    requires (op.Posting? ==> Absent(c, op.draft.id)) && (op.Deleting? ==> PastCopy(c, op.copy))
    ensures ThreadFits(Publish(claims, ThreadEvents(c, op)), Apply(c, op), legacy)
  {
    var after := Publish(claims, ThreadEvents(c, op));
    forall i | 0 <= i < |Apply(c, op).messages|
      ensures Fits(after, Apply(c, op).messages[i], legacy)
    {
      if op.Posting? {
        PostingFits(claims, c, op.draft, legacy, i);
      } else if op.Deleting? {
        DeletionFits(claims, c, op.copy, op.actor, op.at, legacy, i);
      } else if op.Erasing? {
        ErasedCargo(c, op.user, op.at, i);
        ErasureFits(claims, c.messages, op.user, legacy, i, Apply(c, op).messages[i]);
      } else {
        QuietFits(claims, c, op, legacy, i);
      }
    }
  }

  // ── The other threads ────────────────────────────────────────────────────

  ghost predicate SilentOn(events: seq<Sync>, c: Conversation) {
    forall i | 0 <= i < |c.messages| :: Silent(events, c.messages[i].id)
  }

  lemma OthersKeepBooks(claims: Claims, events: seq<Sync>, c: Conversation, legacy: bool)
    requires ThreadFits(claims, c, legacy) && SilentOn(events, c)
    ensures ThreadFits(Publish(claims, events), c, legacy)
  {
    forall i | 0 <= i < |c.messages|
      ensures Fits(Publish(claims, events), c.messages[i], legacy)
    {
      assert Fits(claims, c.messages[i], legacy) && Silent(events, c.messages[i].id);
      SilentIdsStay(claims, events, c.messages[i].id);
    }
  }

  /** No id of `d` was, or becomes, an id of the thread that moved. */
  lemma ApartIsSilent(c: Conversation, op: Op, d: Conversation)
    requires Apart(d, c) && Apart(d, Apply(c, op))
    ensures SilentOn(ThreadEvents(c, op), d)
  {
    forall i | 0 <= i < |d.messages|
      ensures Silent(ThreadEvents(c, op), d.messages[i].id)
    {
      EventsAreItsOwn(c, op, d.messages[i].id);
    }
  }

  /** The rows a step adds carry a new id. */
  lemma AppliedIds(c: Conversation, op: Op, i: nat)
    requires Inv(c) && Admissible(c, op) && !op.Adopting? && i < |Apply(c, op).messages|
    ensures var id := Apply(c, op).messages[i].id;
      if i < |c.messages| then id == c.messages[i].id
      else (op.Posting? && id == op.draft.id) || (op.Leaving? && id == op.line)
  {
    StepKeepsInv(c, op);
    if i < |c.messages| {
      assert RowMoves(c.messages[i], Apply(c, op).messages[i], c.lastSeq);
    }
  }

  lemma StepStaysApart(db: Db, k: ConvId, op: Op, j: ConvId)
    requires Tidy(db) && k in db && j in db && j != k
    requires Admissible(db[k], op) && !op.Adopting? && Fresh(db, op)
    ensures Apart(db[j], Apply(db[k], op)) && Apart(Apply(db[k], op), db[j])
  {
    var c', d := Apply(db[k], op), db[j];
    assert Apart(d, db[k]);
    forall x, y | 0 <= x < |c'.messages| && 0 <= y < |d.messages|
      ensures c'.messages[x].id != d.messages[y].id
    {
      AppliedIds(db[k], op, x);
      assert !Absent(d, d.messages[y].id);
      assert Stored(db, d.messages[y].id);
    }
  }
}
