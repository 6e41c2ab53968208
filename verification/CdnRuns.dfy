/** The claim ledger over whole runs of the system: every writer keeps the books, and a backfill
    closes them for the rows stored before sends published anything. */
module CdnRuns {
  import opened Rows
  import opened Journal
  import opened Store
  import opened Merge
  import opened Gdpr
  import opened CdnLedger

  ghost predicate Good(s: System, legacy: bool) {
    Tidy(s.db) && Balanced(s, legacy)
  }

  // ── One thread moves ─────────────────────────────────────────────────────

  lemma ThreadStepKeepsPair(db: Db, k: ConvId, op: Op, i: ConvId, j: ConvId)
    requires Tidy(db) && k in db && Permitted(db, OnThread(k, op)) && i in db && j in db && i != j
    ensures Apart(db[k := Apply(db[k], op)][i], db[k := Apply(db[k], op)][j])
  {
    if i == k {
      StepStaysApart(db, k, op, j);
    } else if j == k {
      StepStaysApart(db, k, op, i);
    } else {
      assert Apart(db[i], db[j]);
    }
  }

  lemma ThreadStepStaysApart(db: Db, k: ConvId, op: Op)
    requires Tidy(db) && k in db && Permitted(db, OnThread(k, op))
    ensures AllApart(db[k := Apply(db[k], op)])
  {
    var db' := db[k := Apply(db[k], op)];
    forall i, j | i in db' && j in db' && i != j
      ensures Apart(db'[i], db'[j])
    {
      ThreadStepKeepsPair(db, k, op, i, j);
    }
  }

  lemma ThreadStepStaysTidy(db: Db, k: ConvId, op: Op)
    requires Tidy(db) && k in db && Permitted(db, OnThread(k, op))
    ensures Tidy(db[k := Apply(db[k], op)])
  {
    assert Inv(db[k]) && Admissible(db[k], op);
    StepKeepsInv(db[k], op);
    ThreadStepStaysApart(db, k, op);
  }

  lemma ThreadStepFits(s: System, k: ConvId, op: Op, legacy: bool, j: ConvId)
    requires Good(s, legacy) && k in s.db && j in s.db && Permitted(s.db, OnThread(k, op))
    ensures ThreadFits(Publish(s.claims, ThreadEvents(s.db[k], op)), s.db[k := Apply(s.db[k], op)][j], legacy)
  {
    var c := s.db[k];
    if j == k {
      assert op.Posting? ==> !Stored(s.db, op.draft.id);
      assert op.Leaving? ==> !Stored(s.db, op.line);
      ThreadKeepsBooks(s.claims, c, op, legacy);
    } else {
      assert Apart(s.db[j], c);
      StepStaysApart(s.db, k, op, j);
      ApartIsSilent(c, op, s.db[j]);
      OthersKeepBooks(s.claims, ThreadEvents(c, op), s.db[j], legacy);
    }
  }

  lemma IdsStayInThread(c: Conversation, op: Op, id: MsgId)
    requires Inv(c) && Admissible(c, op) && !op.Adopting? && Absent(Apply(c, op), id)
    ensures Absent(c, id)
  {
    StepKeepsInv(c, op);
    forall i | 0 <= i < |c.messages|
      ensures c.messages[i].id != id
    {
      AppliedIds(c, op, i);
    }
  }

  lemma ThreadStepUnstored(s: System, k: ConvId, op: Op, legacy: bool, id: MsgId)
    requires Good(s, legacy) && k in s.db && Permitted(s.db, OnThread(k, op))
    requires !Stored(s.db[k := Apply(s.db[k], op)], id)
    ensures Claimed(Publish(s.claims, ThreadEvents(s.db[k], op)), id) == {}
  {
    var c, db' := s.db[k], s.db[k := Apply(s.db[k], op)];
    assert k in db' && Absent(db'[k], id);
    IdsStayInThread(c, op, id);
    forall j | j in s.db
      ensures Absent(s.db[j], id)
    {
      assert j != k ==> db'[j] == s.db[j];
    }
    assert !Stored(s.db, id);
    EventsAreItsOwn(c, op, id);
    SilentIdsStay(s.claims, ThreadEvents(c, op), id);
  }

  lemma ThreadStepKeepsBooks(s: System, k: ConvId, op: Op, legacy: bool)
    requires Good(s, legacy) && Permitted(s.db, OnThread(k, op))
    ensures Good(Next(s, OnThread(k, op)), legacy)
  {
    var s' := Next(s, OnThread(k, op));
    if k in s.db {
      ThreadStepStaysTidy(s.db, k, op);
      forall j | j in s'.db
        ensures ThreadFits(s'.claims, s'.db[j], legacy)
      {
        ThreadStepFits(s, k, op, legacy, j);
      }
      forall id
        ensures Stored(s'.db, id) || Claimed(s'.claims, id) == {}
      {
        if !Stored(s'.db, id) {
          ThreadStepUnstored(s, k, op, legacy, id);
        }
      }
    }
  }

  // ── A thread goes ────────────────────────────────────────────────────────

  lemma {:induction false} RemovalEmpties(claims: Claims, rows: seq<Message>, legacy: bool, i: nat)
    requires DistinctIds(rows) && i < |rows| && Fits(claims, rows[i], legacy)
    ensures Claimed(Publish(claims, EmitAll(rows, Removal)), rows[i].id) == {}
  {
    EachRowSpeaksOnce(claims, rows, Removal, i);
  }

  lemma DropUnstored(s: System, k: ConvId, legacy: bool, id: MsgId)
    requires Good(s, legacy) && k in s.db && !Stored(s.db - {k}, id)
    ensures Claimed(Publish(s.claims, EmitAll(s.db[k].messages, Removal)), id) == {}
  {
    var rows := s.db[k].messages;
    if Absent(s.db[k], id) {
      forall j | j in s.db
        ensures Absent(s.db[j], id)
      {
        assert j != k ==> j in s.db - {k} && (s.db - {k})[j] == s.db[j];
      }
      assert !Stored(s.db, id);
      EmitsOwnIds(rows, Removal, id);
      SilentIdsStay(s.claims, EmitAll(rows, Removal), id);
    } else {
      var i :| 0 <= i < |rows| && rows[i].id == id;
      assert ThreadFits(s.claims, s.db[k], legacy) && Inv(s.db[k]);
      RemovalEmpties(s.claims, rows, legacy, i);
    }
  }

  lemma DropLeavesOthers(s: System, k: ConvId, legacy: bool, j: ConvId)
    requires Good(s, legacy) && k in s.db && j in s.db && j != k
    ensures ThreadFits(Publish(s.claims, EmitAll(s.db[k].messages, Removal)), s.db[j], legacy)
  {
    var rows, events := s.db[k].messages, EmitAll(s.db[k].messages, Removal);
    assert Apart(s.db[k], s.db[j]) && ThreadFits(s.claims, s.db[j], legacy);
    forall i | 0 <= i < |s.db[j].messages|
      ensures Silent(events, s.db[j].messages[i].id)
    {
      EmitsOwnIds(rows, Removal, s.db[j].messages[i].id);
    }
    OthersKeepBooks(s.claims, events, s.db[j], legacy);
  }

  lemma DropKeepsBooks(s: System, k: ConvId, legacy: bool)
    requires Good(s, legacy) && k in s.db
    ensures Good(System(s.db - {k}, Publish(s.claims, EmitAll(s.db[k].messages, Removal))), legacy)
  {
    var s' := System(s.db - {k}, Publish(s.claims, EmitAll(s.db[k].messages, Removal)));
    forall j | j in s'.db
      ensures ThreadFits(s'.claims, s'.db[j], legacy)
    {
      DropLeavesOthers(s, k, legacy, j);
    }
    forall id
      ensures Stored(s'.db, id) || Claimed(s'.claims, id) == {}
    {
      if !Stored(s'.db, id) {
        DropUnstored(s, k, legacy, id);
      }
    }
  }

  // ── Nothing published ────────────────────────────────────────────────────

  /** The same rows, as far as the ledger is concerned. */
  ghost predicate SameCargo(c: Conversation, c': Conversation) {
    |c'.messages| == |c.messages| &&
    forall i | 0 <= i < |c.messages| ::
      c'.messages[i].id == c.messages[i].id && c'.messages[i].attachments == c.messages[i].attachments
  }

  lemma SameCargoFits(claims: Claims, c: Conversation, c': Conversation, legacy: bool)
    requires SameCargo(c, c') && ThreadFits(claims, c, legacy)
    ensures ThreadFits(claims, c', legacy)
  {
    forall i | 0 <= i < |c'.messages|
      ensures Fits(claims, c'.messages[i], legacy)
    {
      assert Fits(claims, c.messages[i], legacy);
    }
  }

  lemma SameCargoApart(c: Conversation, c': Conversation, d: Conversation, d': Conversation)
    requires SameCargo(c, c') && SameCargo(d, d') && Apart(c, d)
    ensures Apart(c', d')
  {
  }

  ghost predicate SameStore(db: Db, db': Db) {
    db'.Keys == db.Keys && forall k | k in db :: SameCargo(db[k], db'[k])
  }

  lemma SameStoreStores(db: Db, db': Db, id: MsgId)
    requires SameStore(db, db') && Stored(db, id)
    ensures Stored(db', id)
  {
    var k :| k in db && !Absent(db[k], id);
    assert SameCargo(db[k], db'[k]);
    assert k in db' && !Absent(db'[k], id);
  }

  lemma SameStoreApart(db: Db, db': Db)
    requires SameStore(db, db') && AllApart(db)
    ensures AllApart(db')
  {
    forall j, k | j in db' && k in db' && j != k
      ensures Apart(db'[j], db'[k])
    {
      assert Apart(db[j], db[k]);
      SameCargoApart(db[j], db'[j], db[k], db'[k]);
    }
  }

  lemma SameStoreBalanced(s: System, db': Db, legacy: bool)
    requires Balanced(s, legacy) && SameStore(s.db, db')
    ensures Balanced(System(db', s.claims), legacy)
  {
    forall k | k in db'
      ensures ThreadFits(s.claims, db'[k], legacy)
    {
      SameCargoFits(s.claims, s.db[k], db'[k], legacy);
    }
    forall id
      ensures Stored(db', id) || Claimed(s.claims, id) == {}
    {
      if Stored(s.db, id) {
        SameStoreStores(s.db, db', id);
      }
    }
  }

  lemma SameStoreKeepsBooks(s: System, db': Db, legacy: bool)
    requires Good(s, legacy) && SameStore(s.db, db')
    requires forall k | k in db' :: Inv(db'[k])
    ensures Good(System(db', s.claims), legacy)
  {
    SameStoreApart(s.db, db');
    SameStoreBalanced(s, db', legacy);
  }

  lemma MovingKeepsBooks(s: System, from: UserId, into: UserId, legacy: bool)
    requires Good(s, legacy)
    ensures Good(System(Moved(s.db, from, into), s.claims), legacy)
  {
    var db' := Moved(s.db, from, into);
    forall k | k in s.db
      ensures Inv(db'[k]) && SameCargo(s.db[k], db'[k])
    {
      RenameKeepsInv(s.db[k], from, into);
    }
    SameStoreKeepsBooks(s, db', legacy);
  }

  lemma UnseatingKeepsBooks(s: System, user: UserId, legacy: bool)
    requires Good(s, legacy)
    ensures Good(System(UnseatEverywhere(s.db, user), s.claims), legacy)
  {
    var db' := UnseatEverywhere(s.db, user);
    forall k | k in s.db
      ensures Inv(db'[k]) && SameCargo(s.db[k], db'[k])
    {
      MembersAloneKeepInv(s.db[k], db'[k]);
    }
    SameStoreKeepsBooks(s, db', legacy);
  }

  lemma RekeyKeepsBooks(s: System, k: ConvId, key: string, legacy: bool)
    requires Good(s, legacy) && k in s.db
    ensures Good(System(s.db[k := s.db[k].(directKey := key)], s.claims), legacy)
  {
    var db' := s.db[k := s.db[k].(directKey := key)];
    MembersAloneKeepInv(s.db[k], db'[k]);
    assert SameCargo(s.db[k], db'[k]);
    SameStoreKeepsBooks(s, db', legacy);
  }

  // ── A thread is folded into another ──────────────────────────────────────

  /** Rows that change threads take their claims with them: they keep id and attachments. */
  lemma AdoptedCargo(c: Conversation, loser: Conversation, i: nat)
    requires i < |Adopt(c, loser).messages|
    ensures var m' := Adopt(c, loser).messages[i];
      && (i < |c.messages| ==> m' == c.messages[i])
      && (i >= |c.messages| ==>
            && i - |c.messages| < |loser.messages|
            && m'.id == loser.messages[i - |c.messages|].id
            && m'.attachments == loser.messages[i - |c.messages|].attachments)
  {
  }

  lemma AdoptFits(claims: Claims, c: Conversation, loser: Conversation, legacy: bool)
    requires ThreadFits(claims, c, legacy) && ThreadFits(claims, loser, legacy)
    ensures ThreadFits(claims, Adopt(c, loser), legacy)
  {
    forall i | 0 <= i < |Adopt(c, loser).messages|
      ensures Fits(claims, Adopt(c, loser).messages[i], legacy)
    {
      AdoptedCargo(c, loser, i);
      var n := |c.messages|;
      assert if i < n then Fits(claims, c.messages[i], legacy) else Fits(claims, loser.messages[i - n], legacy);
    }
  }

  lemma AdoptApart(c: Conversation, loser: Conversation, d: Conversation)
    requires Apart(d, c) && Apart(d, loser)
    ensures Apart(d, Adopt(c, loser)) && Apart(Adopt(c, loser), d)
  {
    forall i, j | 0 <= i < |Adopt(c, loser).messages| && 0 <= j < |d.messages|
      ensures Adopt(c, loser).messages[i].id != d.messages[j].id
    {
      AdoptedCargo(c, loser, i);
    }
  }

  lemma AdoptStores(c: Conversation, loser: Conversation, id: MsgId)
    requires !Absent(c, id) || !Absent(loser, id)
    ensures !Absent(Adopt(c, loser), id)
  {
    var c' := Adopt(c, loser);
    if !Absent(c, id) {
      var i :| 0 <= i < |c.messages| && c.messages[i].id == id;
      assert c'.messages[i].id == id;
    } else {
      var i :| 0 <= i < |loser.messages| && loser.messages[i].id == id;
      AdoptedCargo(c, loser, |c.messages| + i);
      assert c'.messages[|c.messages| + i].id == id;
    }
  }

  ghost function Folded(db: Db, l: ConvId, w: ConvId): Db
    requires l in db && w in db
  {
    (db - {l})[w := Adopt(db[w], db[l])]
  }

  lemma FoldStaysTidy(db: Db, l: ConvId, w: ConvId)
    requires Tidy(db) && l in db && w in db && l != w
    ensures Tidy(Folded(db, l, w))
  {
    var db' := Folded(db, l, w);
    assert Apart(db[w], db[l]);
    AdoptKeepsInv(db[w], db[l]);
    forall j, k | j in db' && k in db' && j != k
      ensures Apart(db'[j], db'[k])
    {
      if j == w {
        AdoptApart(db[w], db[l], db[k]);
      } else if k == w {
        AdoptApart(db[w], db[l], db[j]);
      }
    }
  }

  lemma FoldStores(db: Db, l: ConvId, w: ConvId, id: MsgId)
    requires l in db && w in db && l != w && Stored(db, id)
    ensures Stored(Folded(db, l, w), id)
  {
    var k :| k in db && !Absent(db[k], id);
    if k == l || k == w {
      AdoptStores(db[w], db[l], id);
      assert !Absent(Folded(db, l, w)[w], id);
    } else {
      assert !Absent(Folded(db, l, w)[k], id);
    }
  }

  lemma FoldKeepsBooks(s: System, l: ConvId, w: ConvId, legacy: bool)
    requires Good(s, legacy) && l in s.db && w in s.db && l != w
    ensures Good(System(Folded(s.db, l, w), s.claims), legacy)
  {
    var db' := Folded(s.db, l, w);
    FoldStaysTidy(s.db, l, w);
    AdoptFits(s.claims, s.db[w], s.db[l], legacy);
    forall id
      ensures Stored(db', id) || Claimed(s.claims, id) == {}
    {
      if Stored(s.db, id) {
        FoldStores(s.db, l, w, id);
      }
    }
  }

  lemma RequalifyKeepsBooks(s: System, k: ConvId, legacy: bool)
    requires Good(s, legacy)
    ensures Good(Next(s, Requalifying(k)), legacy)
  {
    if k in s.db {
      match FateOf(s.db, k) {
        case Dead => DropKeepsBooks(s, k, legacy);
        case Unmoved =>
        case Rekeyed => RekeyKeepsBooks(s, k, KeyOf(s.db[k]), legacy);
        case FoldedInto(w) =>
          assert w in Rivals(s.db, k, KeyOf(s.db[k]));
          FoldKeepsBooks(s, k, w, legacy);
      }
    }
  }

  // ── The backfill ─────────────────────────────────────────────────────────

  lemma TableIdIsStored(db: Db, table: seq<Message>, id: MsgId)
    requires IsTable(db, table) && !Stored(db, id)
    ensures Silent(EmitAll(table, Backfill), id)
  {
    forall i | 0 <= i < |table|
      ensures table[i].id != id
    {
      assert InStore(db, table[i]);
      var k :| k in db && table[i] in db[k].messages;
      assert !Absent(db[k], table[i].id);
    }
    EmitsOwnIds(table, Backfill, id);
  }

  lemma ApartIds(c: Conversation, d: Conversation, a: Message, b: Message)
    requires Apart(c, d) && a in c.messages && b in d.messages
    ensures a.id != b.id
  {
  }

  lemma OneRowPerId(db: Db, j: ConvId, a: Message, k: ConvId, b: Message)
    requires Tidy(db) && j in db && k in db && a in db[j].messages && b in db[k].messages && a.id == b.id
    ensures a == b
  {
    if j != k {
      ApartIds(db[j], db[k], a, b);
    } else {
      assert Inv(db[k]);
    }
  }

  lemma BackfillSkipsTombstones(db: Db, table: seq<Message>, k: ConvId, m: Message)
    requires Tidy(db) && IsTable(db, table) && k in db && m in db[k].messages && !m.Live()
    ensures Silent(EmitAll(table, Backfill), m.id)
  {
    forall i | 0 <= i < |table|
      ensures table[i].id != m.id
    {
      assert InStore(db, table[i]);
      var j :| j in db && table[i] in db[j].messages;
      if table[i].id == m.id {
        OneRowPerId(db, j, table[i], k, m);
      }
    }
    EmitsOwnIds(table, Backfill, m.id);
  }

  lemma BackfilledClaim(claims: Claims, m: Message)
    requires Fits(claims, m, true) && m.Live()
    ensures Claimed(Publish(claims, Emit(m, Backfill)), m.id) == Refs(m.attachments)
  {
  }

  lemma BackfillFits(s: System, table: seq<Message>, k: ConvId, m: Message)
    requires Tidy(s.db) && IsTable(s.db, table) && k in s.db && m in s.db[k].messages
    requires Fits(s.claims, m, true) && Sound(m) && (m.Live() ==> m in table)
    ensures Fits(Publish(s.claims, EmitAll(table, Backfill)), m, false)
  {
    if m.Live() {
      var j :| 0 <= j < |table| && table[j] == m;
      EachRowSpeaksOnce(s.claims, table, Backfill, j);
      BackfilledClaim(s.claims, m);
    } else {
      BackfillSkipsTombstones(s.db, table, k, m);
      SilentIdsStay(s.claims, EmitAll(table, Backfill), m.id);
    }
  }

  lemma BackfillFitsThread(s: System, table: seq<Message>, k: ConvId)
    requires Good(s, true) && IsTable(s.db, table) && k in s.db
    ensures ThreadFits(Publish(s.claims, EmitAll(table, Backfill)), s.db[k], false)
  {
    assert ThreadFits(s.claims, s.db[k], true) && Inv(s.db[k]);
    forall i | 0 <= i < |s.db[k].messages|
      ensures Fits(Publish(s.claims, EmitAll(table, Backfill)), s.db[k].messages[i], false)
    {
      assert Sound(s.db[k].messages[i]);
      BackfillFits(s, table, k, s.db[k].messages[i]);
    }
  }

  lemma BackfillFitsAll(s: System, table: seq<Message>)
    requires Good(s, true) && IsTable(s.db, table)
    ensures forall k | k in s.db :: ThreadFits(Publish(s.claims, EmitAll(table, Backfill)), s.db[k], false)
  {
    forall k | k in s.db
      ensures ThreadFits(Publish(s.claims, EmitAll(table, Backfill)), s.db[k], false)
    {
      BackfillFitsThread(s, table, k);
    }
  }

  lemma BackfillClaimsNothingElse(s: System, table: seq<Message>, id: MsgId)
    requires Balanced(s, true) && IsTable(s.db, table) && !Stored(s.db, id)
    ensures Claimed(Publish(s.claims, EmitAll(table, Backfill)), id) == {}
  {
    TableIdIsStored(s.db, table, id);
    SilentIdsStay(s.claims, EmitAll(table, Backfill), id);
  }

  /** After one full pass no row is claimed short, whatever was missing before. */
  lemma BackfillClosesTheBooks(s: System, table: seq<Message>)
    requires Good(s, true) && IsTable(s.db, table)
    ensures Good(Next(s, Backfilling(table)), false)
  {
    BackfillFitsAll(s, table);
    forall id
      ensures Stored(s.db, id) || Claimed(Publish(s.claims, EmitAll(table, Backfill)), id) == {}
    {
      if !Stored(s.db, id) {
        BackfillClaimsNothingElse(s, table, id);
      }
    }
    assert Next(s, Backfilling(table)) == System(s.db, Publish(s.claims, EmitAll(table, Backfill)));
  }

  // ── Every run ────────────────────────────────────────────────────────────

  lemma ExactIsLegacyToo(s: System)
    requires Good(s, false)
    ensures Good(s, true)
  {
    forall k | k in s.db
      ensures ThreadFits(s.claims, s.db[k], true)
    {
      assert ThreadFits(s.claims, s.db[k], false);
      assert forall i | 0 <= i < |s.db[k].messages| :: Fits(s.claims, s.db[k].messages[i], false);
    }
  }

  lemma OpeningKeepsBooks(s: System, k: ConvId, c: Conversation, legacy: bool)
    requires Good(s, legacy) && k !in s.db && c.messages == [] && c.lastSeq == 0
    ensures Good(System(s.db[k := c], s.claims), legacy)
  {
    var db' := s.db[k := c];
    forall j | j in db'
      ensures Inv(db'[j])
    {
    }
    forall id
      ensures Stored(db', id) || Claimed(s.claims, id) == {}
    {
      if Stored(s.db, id) {
        var j :| j in s.db && !Absent(s.db[j], id);
        assert !Absent(db'[j], id);
      }
    }
  }

  lemma StepKeepsBooks(s: System, step: Step, legacy: bool)
    requires Good(s, legacy) && Permitted(s.db, step)
    ensures Good(Next(s, step), legacy)
  {
    match step {
      case OnThread(k, op) => ThreadStepKeepsBooks(s, k, op, legacy);
      case Opening(k, c) =>
        if k !in s.db {
          OpeningKeepsBooks(s, k, c, legacy);
        }
      case Moving(from, into) => MovingKeepsBooks(s, from, into, legacy);
      case Requalifying(k) => RequalifyKeepsBooks(s, k, legacy);
      case Unseating(user) => UnseatingKeepsBooks(s, user, legacy);
      case Dropping(k) =>
        if k in s.db {
          DropKeepsBooks(s, k, legacy);
        } else {
          assert s.db - {k} == s.db;
        }
      case Backfilling(table) =>
        if !legacy {
          ExactIsLegacyToo(s);
        }
        BackfillClosesTheBooks(s, table);
        if legacy {
          ExactIsLegacyToo(Next(s, step));
        }
    }
  }

  ghost predicate AllPermitted(s: System, steps: seq<Step>) {
    forall i | 0 <= i < |steps| :: Permitted(Play(s, steps[..i]).db, steps[i])
  }

  lemma PrefixIsPermitted(s: System, steps: seq<Step>)
    requires AllPermitted(s, steps) && steps != []
    ensures AllPermitted(s, steps[..|steps| - 1]) && Permitted(Play(s, steps[..|steps| - 1]).db, steps[|steps| - 1])
  {
    var front := steps[..|steps| - 1];
    forall i | 0 <= i < |front|
      ensures Permitted(Play(s, front[..i]).db, front[i])
    {
      assert front[..i] == steps[..i];
    }
  }

  lemma {:induction false} RunKeepsBooks(s: System, steps: seq<Step>, legacy: bool)
    requires Good(s, legacy) && AllPermitted(s, steps)
    ensures Good(Play(s, steps), legacy)
  {
    if steps != [] {
      var front, last := steps[..|steps| - 1], steps[|steps| - 1];
      PrefixIsPermitted(s, steps);
      RunKeepsBooks(s, front, legacy);
      StepKeepsBooks(Play(s, front), last, legacy);
      assert Play(s, steps) == Next(Play(s, front), last);
    }
  }

  /** A reference is claimed by somebody. */
  ghost predicate RefClaimed(claims: Claims, ref: string) {
    exists id :: ref in Claimed(claims, id)
  }

  /** A live message of the thread has an attachment stored under the reference. */
  ghost predicate Carries(c: Conversation, ref: string) {
    exists i :: 0 <= i < |c.messages| && c.messages[i].deletedAt.None? && Carried(c.messages[i].attachments, ref)
  }

  /** Media is claimed exactly while some live message has it attached, by the key of a descriptor or as a
      bare string. */
  lemma RefClaimedIffCarried(s: System, ref: string)
    requires Good(s, false)
    ensures RefClaimed(s.claims, ref) <==> exists k :: k in s.db && Carries(s.db[k], ref)
  {
    if id :| ref in Claimed(s.claims, id) {
      var k :| k in s.db && !Absent(s.db[k], id);
      var i :| 0 <= i < |s.db[k].messages| && s.db[k].messages[i].id == id;
      assert ThreadFits(s.claims, s.db[k], false) && Inv(s.db[k]);
      assert Fits(s.claims, s.db[k].messages[i], false) && Sound(s.db[k].messages[i]);
      RefsAreTheKeys(s.db[k].messages[i].attachments, ref);
      assert Carries(s.db[k], ref);
    }
    if k :| k in s.db && Carries(s.db[k], ref) {
      var rows := s.db[k].messages;
      var i :| 0 <= i < |rows| && rows[i].deletedAt.None? && Carried(rows[i].attachments, ref);
      RefsAreTheKeys(rows[i].attachments, ref);
      assert ThreadFits(s.claims, s.db[k], false);
      assert Fits(s.claims, s.db[k].messages[i], false);
      assert ref in Claimed(s.claims, s.db[k].messages[i].id);
    }
  }

  /** The main law: from an empty store, or from one whose old rows a full backfill has covered, in
      every run a reference is claimed exactly while a live message carries it. */
  lemma ClaimsFollowTheRows(s: System, table: seq<Message>, steps: seq<Step>, ref: string)
    requires Good(s, true) && IsTable(s.db, table) && AllPermitted(Next(s, Backfilling(table)), steps)
    ensures var s' := Play(Next(s, Backfilling(table)), steps);
      RefClaimed(s'.claims, ref) <==> exists k :: k in s'.db && Carries(s'.db[k], ref)
  {
    BackfillClosesTheBooks(s, table);
    RunKeepsBooks(Next(s, Backfilling(table)), steps, false);
    RefClaimedIffCarried(Play(Next(s, Backfilling(table)), steps), ref);
  }

  lemma EmptyStoreIsBalanced()
    ensures Good(System(map[], map[]), false)
  {
  }

  /** A copy read at any earlier state of its thread is a past copy. */
  lemma EarlierCopyIsPast(c: Conversation, c': Conversation, i: nat)
    requires Inv(c) && Inv(c') && Grows(c, c') && i < |c.messages|
    ensures PastCopy(c', c.messages[i])
  {
    assert RowMoves(c.messages[i], c'.messages[i], c.lastSeq);
  }
}
