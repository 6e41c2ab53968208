/** What `user.merged` keeps, what it removes, and that delivering it again changes nothing. */
module MergeKeeps {
  import opened Text
  import opened Rows
  import opened Journal
  import opened DirectKey
  import opened Store
  import opened Merge
  import opened Readers
  import opened Columns

  // ── After the move, before the threads are keyed again ───────────────────

  lemma MovedIsSound(db: Db, from: UserId, into: UserId, k: ConvId)
    requires GlobalInv(db) && k in db
    ensures Inv(Moved(db, from, into)[k])
  {
    RenameKeepsInv(db[k], from, into);
  }

  lemma MovedIsApart(db: Db, from: UserId, into: UserId, j: ConvId, k: ConvId)
    requires GlobalInv(db) && j in db && k in db && j != k
    ensures Apart(Moved(db, from, into)[j], Moved(db, from, into)[k])
    ensures !SameKey(Moved(db, from, into)[j], Moved(db, from, into)[k])
  {
    assert Apart(db[j], db[k]) && !SameKey(db[j], db[k]);
  }

  lemma BystanderThreadIsSound(db: Db, from: UserId, into: UserId, k: ConvId)
    requires GlobalInv(db) && from != into && k in db && k !in Stale(db, from)
    ensures DirectSound(Moved(db, from, into)[k])
  {
    var c := db[k];
    if c.kind.Direct? {
      assert DirectSound(c);
      var a, b :| Between(c, a, b);
      MovedMembers(c, from, into);
      assert Between(Rename(c, from, into), a, b);
    }
  }

  lemma LivingThreadIsKeyed(db: Db, from: UserId, into: UserId, k: ConvId)
    requires GlobalInv(db) && from != into && Clean(into) && k in Stale(db, from)
    requires Living(Moved(db, from, into), k)
    ensures var c := Moved(db, from, into)[k]; DirectSound(c.(directKey := KeyOf(c)))
  {
    var c := Moved(db, from, into)[k];
    var other := LivingKey(db, from, into, k);
    assert DirectSound(db[k]);
    assert Between(c.(directKey := KeyOf(c)), into, other);
  }

  /** Both sides of a fold seat the same two people. */
  lemma FoldSeatsTheSamePair(db: Db, from: UserId, into: UserId, l: ConvId, w: ConvId)
    requires GlobalInv(db) && from != into && Clean(into) && l in Stale(db, from)
    requires FoldsInto(Moved(db, from, into), l, w)
    ensures w in db && w !in Stale(db, from) && w != l
    ensures Moved(db, from, into)[l].members.Keys == Moved(db, from, into)[w].members.Keys
    ensures DirectSound(Moved(db, from, into)[w])
  {
    var moved := Moved(db, from, into);
    MergeDisentangles(db, from, into);
    WinnerIsNotStale(moved, Stale(db, from), l, w);
    BystanderThreadIsSound(db, from, into, w);
    var x := LivingKey(db, from, into, l);
    var a, b :| Between(moved[w], a, b);
    assert DirectSound(db[l]);
    KeyIsInjective(db[l].scope, into, x, db[l].subjectType, db[l].subjectKey,
      moved[w].scope, a, b, moved[w].subjectType, moved[w].subjectKey);
  }

  lemma AdoptKeepsMembers(c: Conversation, loser: Conversation)
    requires loser.members.Keys <= c.members.Keys
    ensures Adopt(c, loser).members == c.members
    ensures DirectSound(c) ==> DirectSound(Adopt(c, loser))
  {
    var c' := Adopt(c, loser);
    if DirectSound(c) && c.kind.Direct? {
      var a, b :| Between(c, a, b);
      assert Between(c', a, b);
    }
  }

  // ── One thread of the outcome ────────────────────────────────────────────

  /** Everything a merge can leave at `k`: the thread as moved, keyed again, or with one stale
      thread's rows appended. */
  datatype Shape = AsMoved | KeyedAgain | Grown(loser: ConvId)

  ghost function ShapeOf(moved: Db, stale: set<ConvId>, k: ConvId): Shape {
    if k in stale then KeyedAgain
    else if LosersOf(moved, stale, k) == {} then AsMoved
    else Grown(Pick(LosersOf(moved, stale, k)))
  }

  /** The outcome of a merge, thread by thread. */
  ghost predicate Outcome(db: Db, from: UserId, into: UserId, db': Db) {
    Settled(Moved(db, from, into), Stale(db, from), db')
  }

  lemma MergeHasOutcome(db: Db, from: UserId, into: UserId, order: seq<ConvId>)
    requires GlobalInv(db) && from != into && Clean(into) && Lists(order, Stale(db, from))
    ensures Outcome(db, from, into, RequalifyAll(Moved(db, from, into), order))
  {
    MergeDisentangles(db, from, into);
    AnyOrderSettles(Moved(db, from, into), Stale(db, from), order);
  }

  ghost predicate HasShape(db: Db, from: UserId, into: UserId, k: ConvId, c': Conversation) {
    var moved := Moved(db, from, into);
    k in db && k in moved &&
    match ShapeOf(moved, Stale(db, from), k)
    case AsMoved => k !in Stale(db, from) && c' == moved[k]
    case KeyedAgain => k in Stale(db, from) && Living(moved, k) && c' == moved[k].(directKey := KeyOf(moved[k]))
    case Grown(l) =>
      && k !in Stale(db, from) && l in Stale(db, from) && l in db && l != k && FoldsInto(moved, l, k)
      && c' == Adopt(moved[k], moved[l])
  }

  lemma ShapeIsExact(db: Db, from: UserId, into: UserId, db': Db, k: ConvId)
    requires GlobalInv(db) && from != into && Clean(into) && Outcome(db, from, into, db') && k in db'
    ensures HasShape(db, from, into, k, db'[k])
  {
    var moved, stale := Moved(db, from, into), Stale(db, from);
    assert Remains(moved, stale, k);
    assert db'[k] == Final(moved, stale, k);
    if k !in stale && LosersOf(moved, stale, k) != {} {
      var l := Pick(LosersOf(moved, stale, k));
      FoldSeatsTheSamePair(db, from, into, l, k);
    }
  }

  lemma OutcomeKeepsInv(db: Db, from: UserId, into: UserId, db': Db, k: ConvId)
    requires GlobalInv(db) && from != into && Clean(into) && Outcome(db, from, into, db') && k in db'
    ensures Inv(db'[k])
  {
    ShapeIsExact(db, from, into, db', k);
    var moved := Moved(db, from, into);
    MovedIsSound(db, from, into, k);
    match ShapeOf(moved, Stale(db, from), k) {
      case Grown(l) =>
        MovedIsSound(db, from, into, l);
        MovedIsApart(db, from, into, k, l);
        AdoptKeepsInv(moved[k], moved[l]);
      case _ =>
        MembersAloneKeepInv(moved[k], db'[k]);
    }
  }

  lemma OutcomeKeepsPairs(db: Db, from: UserId, into: UserId, db': Db, k: ConvId)
    requires GlobalInv(db) && from != into && Clean(into) && Outcome(db, from, into, db') && k in db'
    ensures DirectSound(db'[k])
  {
    ShapeIsExact(db, from, into, db', k);
    var moved := Moved(db, from, into);
    match ShapeOf(moved, Stale(db, from), k) {
      case AsMoved => BystanderThreadIsSound(db, from, into, k);
      case KeyedAgain => LivingThreadIsKeyed(db, from, into, k);
      case Grown(l) =>
        FoldSeatsTheSamePair(db, from, into, l, k);
        AdoptKeepsMembers(moved[k], moved[l]);
    }
  }

  // ── No row in two threads, one thread per key ────────────────────────────

  /** The same message, as far as its readers can tell: only the guest's name, the place in the
      thread and the sender's idempotency key may have changed. */
  predicate SameMessage(m: Message, m': Message, from: UserId, into: UserId) {
    m' == m.(sender := Renamed(m.sender, from, into),
             number := m'.number, revision := m'.revision, clientId := m'.clientId)
  }

  /** Thread `k` of the outcome is where thread `o`'s rows end up. */
  ghost predicate GoesTo(db: Db, from: UserId, into: UserId, o: ConvId, k: ConvId) {
    o == k || (o in Stale(db, from) && FoldsInto(Moved(db, from, into), o, k))
  }

  lemma MovedRow(c: Conversation, from: UserId, into: UserId, i: nat)
    requires i < |c.messages|
    ensures SameMessage(c.messages[i], Rename(c, from, into).messages[i], from, into)
  {
  }

  /** Which rows of which threads make up thread `k` of the outcome. */
  lemma RowsOfShape(db: Db, from: UserId, into: UserId, k: ConvId, c': Conversation)
    requires HasShape(db, from, into, k, c')
    ensures k in db
    ensures match ShapeOf(Moved(db, from, into), Stale(db, from), k)
      case Grown(l) =>
        && l in db && GoesTo(db, from, into, l, k)
        && c' == Adopt(Rename(db[k], from, into), Rename(db[l], from, into))
      case _ => c'.messages == Rename(db[k], from, into).messages
  {
  }

  lemma GrownRow(db: Db, from: UserId, into: UserId, k: ConvId, l: ConvId, c': Conversation, i: nat)
    returns (o: ConvId, j: nat)
    requires k in db && l in db && i < |c'.messages|
    requires c' == Adopt(Rename(db[k], from, into), Rename(db[l], from, into))
    ensures o == k || o == l
    ensures j < |db[o].messages| && SameMessage(db[o].messages[j], c'.messages[i], from, into)
  {
    if i < |db[k].messages| {
      o, j := k, i;
    } else {
      o, j := l, i - |db[k].messages|;
    }
    MovedRow(db[o], from, into, j);
  }

  /** Row `i` of `c'` is row `j` of thread `o`, which ends up in thread `k`. */
  ghost predicate ComesFrom(db: Db, from: UserId, into: UserId, k: ConvId, m': Message, o: ConvId, j: nat) {
    && o in db && j < |db[o].messages| && GoesTo(db, from, into, o, k)
    && SameMessage(db[o].messages[j], m', from, into)
  }

  /** The thread a row of the outcome comes from, and its position there. */
  lemma RowOrigin(db: Db, from: UserId, into: UserId, k: ConvId, c': Conversation, i: nat) returns (o: ConvId, j: nat)
    requires HasShape(db, from, into, k, c') && i < |c'.messages|
    ensures ComesFrom(db, from, into, k, c'.messages[i], o, j)
  {
    RowsOfShape(db, from, into, k, c');
    var shape := ShapeOf(Moved(db, from, into), Stale(db, from), k);
    if shape.Grown? {
      o, j := GrownRow(db, from, into, k, shape.loser, c', i);
    } else {
      MovedRow(db[k], from, into, i);
      o, j := k, i;
    }
  }

  lemma OriginsDiffer(db: Db, from: UserId, into: UserId, db': Db, j: ConvId, o: ConvId, k: ConvId, p: ConvId)
    requires Outcome(db, from, into, db') && j in db' && k in db' && j != k
    requires GoesTo(db, from, into, o, j) && GoesTo(db, from, into, p, k)
    ensures o != p
  {
    var moved, stale := Moved(db, from, into), Stale(db, from);
    assert Remains(moved, stale, j) && Remains(moved, stale, k);
  }

  lemma OutcomeIsApart(db: Db, from: UserId, into: UserId, db': Db, j: ConvId, k: ConvId)
    requires GlobalInv(db) && from != into && Clean(into) && Outcome(db, from, into, db')
    requires j in db' && k in db' && j != k
    ensures Apart(db'[j], db'[k])
  {
    ShapeIsExact(db, from, into, db', j);
    ShapeIsExact(db, from, into, db', k);
    forall a, b | 0 <= a < |db'[j].messages| && 0 <= b < |db'[k].messages|
      ensures db'[j].messages[a].id != db'[k].messages[b].id
    {
      var o, x := RowOrigin(db, from, into, j, db'[j], a);
      var p, y := RowOrigin(db, from, into, k, db'[k], b);
      OriginsDiffer(db, from, into, db', j, o, k, p);
      assert Apart(db[o], db[p]);
    }
  }

  lemma NewKeyIsFree(moved: Db, stale: set<ConvId>, j: ConvId, k: ConvId)
    requires Disentangled(moved, stale) && j in stale && k in moved && j != k
    requires Living(moved, j) && !Vanishes(FateOf(moved, j))
    ensures !(moved[k].kind.Direct? && moved[k].directKey == KeyOf(moved[j]))
  {
    assert NotItsKey(moved, j, j);
    assert k !in Rivals(moved, j, KeyOf(moved[j]));
  }

  lemma OutcomeKeysDiffer(db: Db, from: UserId, into: UserId, db': Db, j: ConvId, k: ConvId)
    requires GlobalInv(db) && from != into && Clean(into) && Outcome(db, from, into, db')
    requires j in db' && k in db' && j != k
    ensures !SameKey(db'[j], db'[k])
  {
    var moved, stale := Moved(db, from, into), Stale(db, from);
    ShapeIsExact(db, from, into, db', j);
    ShapeIsExact(db, from, into, db', k);
    MergeDisentangles(db, from, into);
    MovedIsApart(db, from, into, j, k);
    assert Remains(moved, stale, j) && Remains(moved, stale, k);
    if j in stale && k in stale {
      assert KeysDiffer(moved, j, k);
    } else if j in stale {
      NewKeyIsFree(moved, stale, j, k);
    } else if k in stale {
      NewKeyIsFree(moved, stale, k, j);
    }
  }

  lemma OutcomeIsSound(db: Db, from: UserId, into: UserId, db': Db)
    requires GlobalInv(db) && from != into && Clean(into) && Outcome(db, from, into, db')
    ensures GlobalInv(db')
  {
    forall k | k in db'
      ensures Inv(db'[k]) && DirectSound(db'[k])
    {
      OutcomeKeepsInv(db, from, into, db', k);
      OutcomeKeepsPairs(db, from, into, db', k);
    }
    forall j, k | j in db' && k in db' && j != k
      ensures Apart(db'[j], db'[k]) && !SameKey(db'[j], db'[k])
    {
      OutcomeIsApart(db, from, into, db', j, k);
      OutcomeKeysDiffer(db, from, into, db', j, k);
    }
  }

  // ── The guest is gone ────────────────────────────────────────────────────

  lemma MovedForgets(c: Conversation, from: UserId, into: UserId)
    requires from != into
    ensures !Names(Rename(c, from, into), from)
  {
    MovedMembers(c, from, into);
  }

  lemma AdoptForgets(c: Conversation, loser: Conversation, user: UserId)
    requires !Names(c, user) && !Names(loser, user)
    ensures !Names(Adopt(c, loser), user)
  {
    var c' := Adopt(c, loser);
    assert !Authors(c, user) && !Authors(loser, user);
    forall i | 0 <= i < |c'.messages|
      ensures c'.messages[i].sender != Some(user)
    {
      var n := |c.messages|;
      assert c'.messages[i].sender == if i < n then c.messages[i].sender else loser.messages[i - n].sender;
    }
  }

  lemma OutcomeForgets(db: Db, from: UserId, into: UserId, db': Db, k: ConvId)
    requires GlobalInv(db) && from != into && Clean(into) && Outcome(db, from, into, db') && k in db'
    ensures !Names(db'[k], from)
  {
    ShapeIsExact(db, from, into, db', k);
    RowsOfShape(db, from, into, k, db'[k]);
    MovedForgets(db[k], from, into);
    var shape := ShapeOf(Moved(db, from, into), Stale(db, from), k);
    if shape.Grown? {
      MovedForgets(db[shape.loser], from, into);
      AdoptForgets(Rename(db[k], from, into), Rename(db[shape.loser], from, into), from);
    }
  }

  /** A row of the outcome leads back to the guest exactly when it is one of their departure lines. */
  lemma OnlyDepartureLinesStay(db: Db, from: UserId, into: UserId, k: ConvId, c': Conversation, i: nat)
    returns (o: ConvId, j: nat)
    requires from != into && HasShape(db, from, into, k, c') && i < |c'.messages|
    ensures ComesFrom(db, from, into, k, c'.messages[i], o, j)
    ensures c'.messages[i].sender != Some(from)
    ensures DepartureLine(c'.messages[i], from) <==> DepartureLine(db[o].messages[j], from)
  {
    o, j := RowOrigin(db, from, into, k, c', i);
  }

  // ── Nothing is lost ──────────────────────────────────────────────────────

  /** The guest's thread with the very account they merged into. */
  predicate WithSelf(c: Conversation, from: UserId, into: UserId) {
    c.kind.Direct? && c.members.Keys == {from, into}
  }

  lemma OnlySelfThreadsDie(db: Db, from: UserId, into: UserId, k: ConvId)
    requires GlobalInv(db) && from != into && Clean(into) && k in Stale(db, from)
    ensures Living(Moved(db, from, into), k) <==> !WithSelf(db[k], from, into)
  {
    var other := StaleThread(db, from, into, k);
    assert into in {from, other} <==> into == other;
  }

  lemma StaysHome(db: Db, from: UserId, into: UserId, db': Db, o: ConvId)
    requires GlobalInv(db) && from != into && Clean(into) && Outcome(db, from, into, db') && o in db
    requires o in Stale(db, from) ==> !Vanishes(FateOf(Moved(db, from, into), o))
    ensures o in db' && GoesTo(db, from, into, o, o)
  {
    assert Remains(Moved(db, from, into), Stale(db, from), o);
  }

  lemma MovesIn(db: Db, from: UserId, into: UserId, db': Db, o: ConvId, k: ConvId)
    requires GlobalInv(db) && from != into && Clean(into) && Outcome(db, from, into, db')
    requires o in Stale(db, from) && FoldsInto(Moved(db, from, into), o, k)
    ensures k in db' && k in db && o != k && GoesTo(db, from, into, o, k)
    ensures db'[k] == Adopt(Rename(db[k], from, into), Rename(db[o], from, into))
  {
    var moved, stale := Moved(db, from, into), Stale(db, from);
    FoldSeatsTheSamePair(db, from, into, o, k);
    assert Remains(moved, stale, k);
    ShapeIsExact(db, from, into, db', k);
    RowsOfShape(db, from, into, k, db'[k]);
    assert o in LosersOf(moved, stale, k);
    var l := Pick(LosersOf(moved, stale, k));
    MergeDisentangles(db, from, into);
    OneLoserEach(moved, stale, o, l, k);
  }

  /** Where the rows of a thread end up, unless the merge made it a thread with oneself. */
  lemma HomeOf(db: Db, from: UserId, into: UserId, db': Db, o: ConvId) returns (k: ConvId)
    requires GlobalInv(db) && from != into && Clean(into) && Outcome(db, from, into, db')
    requires o in db && !WithSelf(db[o], from, into)
    ensures k in db' && GoesTo(db, from, into, o, k)
  {
    if o in Stale(db, from) {
      OnlySelfThreadsDie(db, from, into, o);
    }
    var fate := FateOf(Moved(db, from, into), o);
    if o in Stale(db, from) && fate.FoldedInto? {
      k := fate.winner;
      MovesIn(db, from, into, db', o, k);
    } else {
      k := o;
      StaysHome(db, from, into, db', o);
    }
  }

  /** A row that stays in its thread keeps everything but the guest's name; a row that moves into
      another keeps its content and lands, in order, above everything numbered there; its idempotency
      key goes only where it is already taken. */
  ghost predicate Arrives(db: Db, from: UserId, into: UserId, db': Db, o: ConvId, j: nat, k: ConvId, i: nat) {
    && o in db && j < |db[o].messages| && k in db' && i < |db'[k].messages|
    && (o == k ==>
          i == j && db'[k].messages[i] == db[o].messages[j].(sender := Renamed(db[o].messages[j].sender, from, into)))
    && (o != k ==>
          && k in db && i == |db[k].messages| + j
          && SameMessage(db[o].messages[j], db'[k].messages[i], from, into)
          && db'[k].messages[i].number == db'[k].messages[i].revision == db[k].lastSeq + j + 1
          && db'[k].messages[i].clientId ==
             if TakenKey(db[k].messages, db[o].messages[j].clientId) then "" else db[o].messages[j].clientId)
  }

  lemma {:induction false} RenamedKeys(rows: seq<Message>, from: UserId, into: UserId, clientId: string)
    ensures IndexOfKey(RenameRows(rows, from, into), clientId) == IndexOfKey(rows, clientId)
  {
    if rows != [] {
      RenamedKeys(rows[1..], from, into, clientId);
      assert RenameRows(rows, from, into)[1..] == RenameRows(rows[1..], from, into);
    }
  }

  lemma FoldedRowArrives(c: Conversation, loser: Conversation, from: UserId, into: UserId, j: nat)
    requires j < |loser.messages|
    ensures var c' := Adopt(Rename(c, from, into), Rename(loser, from, into));
      && |c.messages| + j < |c'.messages|
      && SameMessage(loser.messages[j], c'.messages[|c.messages| + j], from, into)
      && c'.messages[|c.messages| + j].number == c'.messages[|c.messages| + j].revision == c.lastSeq + j + 1
      && c'.messages[|c.messages| + j].clientId ==
         if TakenKey(c.messages, loser.messages[j].clientId) then "" else loser.messages[j].clientId
  {
    MovedRow(loser, from, into, j);
    RenamedKeys(c.messages, from, into, loser.messages[j].clientId);
  }

  lemma RowStaysPut(db: Db, from: UserId, into: UserId, k: ConvId, c': Conversation, j: nat)
    requires HasShape(db, from, into, k, c') && k in db && j < |db[k].messages|
    ensures j < |c'.messages|
    ensures c'.messages[j] == db[k].messages[j].(sender := Renamed(db[k].messages[j].sender, from, into))
  {
    RowsOfShape(db, from, into, k, c');
    assert |Rename(db[k], from, into).messages| == |db[k].messages|;
  }

  lemma NoMessageIsLost(db: Db, from: UserId, into: UserId, db': Db, o: ConvId, j: nat) returns (k: ConvId, i: nat)
    requires GlobalInv(db) && from != into && Clean(into) && Outcome(db, from, into, db')
    requires o in db && j < |db[o].messages| && !WithSelf(db[o], from, into)
    ensures Arrives(db, from, into, db', o, j, k, i)
  {
    k := HomeOf(db, from, into, db', o);
    if o == k {
      i := j;
      ShapeIsExact(db, from, into, db', k);
      RowStaysPut(db, from, into, k, db'[k], j);
    } else {
      MovesIn(db, from, into, db', o, k);
      FoldedRowArrives(db[k], db[o], from, into, j);
      i := |db[k].messages| + j;
    }
  }

  lemma NothingComesFromSelf(db: Db, from: UserId, into: UserId, db': Db, o: ConvId, k: ConvId)
    requires GlobalInv(db) && from != into && Clean(into) && Outcome(db, from, into, db')
    requires o in db && k in db' && WithSelf(db[o], from, into)
    ensures !GoesTo(db, from, into, o, k)
  {
    OnlySelfThreadsDie(db, from, into, o);
    assert Remains(Moved(db, from, into), Stale(db, from), k);
  }

  lemma SelfThreadIsLost(db: Db, from: UserId, into: UserId, db': Db, o: ConvId, j: nat)
    requires GlobalInv(db) && from != into && Clean(into) && Outcome(db, from, into, db')
    requires o in db && j < |db[o].messages| && WithSelf(db[o], from, into)
    ensures !Stored(db', db[o].messages[j].id)
  {
    forall k, i | k in db' && 0 <= i < |db'[k].messages|
      ensures db'[k].messages[i].id != db[o].messages[j].id
    {
      ShapeIsExact(db, from, into, db', k);
      var p, x := RowOrigin(db, from, into, k, db'[k], i);
      NothingComesFromSelf(db, from, into, db', o, k);
      assert Apart(db[p], db[o]);
    }
  }

  /** Exactly the messages of the guest's thread with the survivor are lost. */
  lemma MessageSurvivesIff(db: Db, from: UserId, into: UserId, db': Db, o: ConvId, j: nat)
    requires GlobalInv(db) && from != into && Clean(into) && Outcome(db, from, into, db')
    requires o in db && j < |db[o].messages|
    ensures Stored(db', db[o].messages[j].id) <==> !WithSelf(db[o], from, into)
  {
    if WithSelf(db[o], from, into) {
      SelfThreadIsLost(db, from, into, db', o, j);
    } else {
      var k, i := NoMessageIsLost(db, from, into, db', o, j);
      assert db'[k].messages[i].id == db[o].messages[j].id;
    }
  }

  // ── A fold, seen from the thread that survives it ────────────────────────

  lemma FoldedInto(c: Conversation, loser: Conversation, from: UserId, into: UserId)
    requires from !in c.members && loser.members.Keys - {from} + {into} == c.members.Keys && from in loser.members
    requires from != into
    ensures var c' := Adopt(Rename(c, from, into), Rename(loser, from, into));
      && c'.members == c.members
      && |c'.messages| == |c.messages| + |loser.messages|
      && c'.messages[..|c.messages|] == RenameRows(c.messages, from, into)
      && c'.lastSeq == c.lastSeq + |loser.messages|
  {
    MovedMembers(loser, from, into);
    AdoptKeepsMembers(Rename(c, from, into), Rename(loser, from, into));
  }

  /** The thread that already carried the key keeps its rows, numbers and members; the other's rows
      follow in their order. */
  lemma FoldLeavesTheWinner(db: Db, from: UserId, into: UserId, db': Db, o: ConvId, k: ConvId)
    requires GlobalInv(db) && from != into && Clean(into) && Outcome(db, from, into, db')
    requires o in Stale(db, from) && FoldsInto(Moved(db, from, into), o, k)
    ensures k in db && k in db' && db'[k].members == db[k].members
    ensures var n := |db[k].messages|;
      && |db'[k].messages| == n + |db[o].messages|
      && db'[k].messages[..n] == RenameRows(db[k].messages, from, into)
      && db'[k].lastSeq == db[k].lastSeq + |db[o].messages|
  {
    FoldSeatsTheSamePair(db, from, into, o, k);
    WinnerSeatsTheSurvivor(db, from, into, o, k);
    MovesIn(db, from, into, db', o, k);
    FoldedInto(db[k], db[o], from, into);
  }

  lemma WinnerSeatsTheSurvivor(db: Db, from: UserId, into: UserId, o: ConvId, k: ConvId)
    requires from != into && o in Stale(db, from) && k in db && k !in Stale(db, from)
    requires FoldsInto(Moved(db, from, into), o, k)
    requires Moved(db, from, into)[o].members.Keys == Moved(db, from, into)[k].members.Keys
    ensures from !in db[k].members && db[o].members.Keys - {from} + {into} == db[k].members.Keys
  {
    var moved := Moved(db, from, into);
    assert k in Rivals(moved, o, KeyOf(moved[o]));
    MovedMembers(db[o], from, into);
    MovedMembers(db[k], from, into);
  }

  /** Some column of the store holds the user's id: a membership, a message's author, or an assignment. */
  ghost predicate Owns(db: Db, user: UserId) {
    exists k :: k in db &&
      (user in db[k].members || db[k].operator == Some(user)
       || exists i :: 0 <= i < |db[k].messages| && db[k].messages[i].sender == Some(user))
  }

  lemma OwnsIsOwnsSomething(db: Db, user: UserId)
    ensures OwnsSomething(db, user) <==> Owns(db, user)
  {
    forall k | k in db
      ensures Names(db[k], user) <==>
        user in db[k].members || db[k].operator == Some(user)
        || exists i :: 0 <= i < |db[k].messages| && db[k].messages[i].sender == Some(user)
    {
    }
  }

  // ── Who sits where afterwards ────────────────────────────────────────────

  /** The thread is about what it was about, and assigned to whom it was, under the survivor's name. */
  predicate SameThread(c: Conversation, c': Conversation, from: UserId, into: UserId) {
    && c'.kind == c.kind && c'.scope == c.scope && c'.subjectType == c.subjectType && c'.subjectKey == c.subjectKey
    && c'.operator == (if c.operator == Some(from) then Some(into) else c.operator)
  }

  lemma SeatsOfShape(db: Db, from: UserId, into: UserId, k: ConvId, c': Conversation)
    requires from != into && HasShape(db, from, into, k, c')
    requires !ShapeOf(Moved(db, from, into), Stale(db, from), k).Grown?
    ensures k in db && SeatsMoved(db[k].members, c'.members, from, into) && SameThread(db[k], c', from, into)
  {
    MergeMovesTheSeat(db[k], from, into);
  }

  lemma SeatsOfWinner(db: Db, from: UserId, into: UserId, db': Db, o: ConvId, k: ConvId)
    requires GlobalInv(db) && from != into && Clean(into) && Outcome(db, from, into, db')
    requires o in Stale(db, from) && FoldsInto(Moved(db, from, into), o, k)
    ensures k in db && k in db'
    ensures SeatsMoved(db[k].members, db'[k].members, from, into) && SameThread(db[k], db'[k], from, into)
  {
    FoldLeavesTheWinner(db, from, into, db', o, k);
    MovesIn(db, from, into, db', o, k);
    FoldSeatsTheSamePair(db, from, into, o, k);
    WinnerSeatsTheSurvivor(db, from, into, o, k);
  }

  lemma OutcomeMovesSeats(db: Db, from: UserId, into: UserId, db': Db, k: ConvId)
    requires GlobalInv(db) && from != into && Clean(into) && Outcome(db, from, into, db') && k in db'
    ensures k in db && SeatsMoved(db[k].members, db'[k].members, from, into) && SameThread(db[k], db'[k], from, into)
  {
    ShapeIsExact(db, from, into, db', k);
    var shape := ShapeOf(Moved(db, from, into), Stale(db, from), k);
    if shape.Grown? {
      SeatsOfWinner(db, from, into, db', shape.loser, k);
    } else {
      SeatsOfShape(db, from, into, k, db'[k]);
    }
  }

  /** One thread, before and after: its seats moved, it is the same thread, and the survivor is on the list the
      guest was on. */
  ghost predicate SeatsAfter(c: Conversation, c': Conversation, from: UserId, into: UserId) {
    && SeatsMoved(c.members, c'.members, from, into) && SameThread(c, c', from, into)
    && (from in c.members && into !in c.members ==>
          (InLeft(c', into) <==> InLeft(c, from)) && (InInbox(c', into) <==> InInbox(c, from)))
  }

  /** What a delivery that is carried out leaves of every seat: a guest's seat is the survivor's as it was,
      role, markers, departure and mark; where both sat the survivor keeps theirs with the further markers;
      and nobody else's moves. A thread the guest had left stays left. */
  lemma SeatsAfterMerge(
    db: Db, accounts: set<UserId>, readable: bool, from: UserId, into: UserId, order: seq<ConvId>)
    requires GlobalInv(db) && Clean(into) && Lists(order, Stale(db, from))
    requires from != "" && into != "" && from != into && readable && Owns(db, from) && into in accounts
    ensures UserMerged(db, accounts, readable, from, into, order).Returned?
    ensures var db' := UserMerged(db, accounts, readable, from, into, order).db;
      forall k | k in db' :: k in db && SeatsAfter(db[k], db'[k], from, into)
  {
    OwnsIsOwnsSomething(db, from);
    MergeHasOutcome(db, from, into, order);
    var db' := UserMerged(db, accounts, readable, from, into, order).db;
    forall k | k in db'
      ensures k in db && SeatsAfter(db[k], db'[k], from, into)
    {
      OutcomeMovesSeats(db, from, into, db', k);
    }
  }

  // ── The handler as a whole ───────────────────────────────────────────────

  /** A delivery asks to be repeated exactly when it names two accounts, the guest has something here, and
      the survivor is not known yet. It is ignored when it names no two accounts, or the guest has nothing
      here, or had nothing since the last time. Otherwise no column names the guest any more. */
  lemma MergeAnswers(
    db: Db, accounts: set<UserId>, readable: bool, from: UserId, into: UserId, order: seq<ConvId>)
    requires GlobalInv(db) && Clean(into) && Lists(order, Stale(db, from))
    ensures var answer := UserMerged(db, accounts, readable, from, into, order);
      var named := from != "" && into != "" && from != into && readable;
      && (answer.MergeTargetNotReady? <==> named && Owns(db, from) && into !in accounts)
      && (!named || !Owns(db, from) ==> answer == Returned(db))
      && (named && answer.Returned? ==> !Owns(answer.db, from))
  {
    OwnsIsOwnsSomething(db, from);
    var answer := UserMerged(db, accounts, readable, from, into, order);
    if answer.Returned? {
      UserMergedKeepsInv(db, accounts, readable, from, into, order);
      OwnsIsOwnsSomething(answer.db, from);
    }
  }

  /** Every delivery keeps the global invariant, and one that is not refused or raised leaves no
      column naming the guest. */
  lemma UserMergedKeepsInv(
    db: Db, accounts: set<UserId>, readable: bool, from: UserId, into: UserId, order: seq<ConvId>)
    requires GlobalInv(db) && Clean(into) && Lists(order, Stale(db, from))
    requires UserMerged(db, accounts, readable, from, into, order).Returned?
    ensures var db' := UserMerged(db, accounts, readable, from, into, order).db;
      && GlobalInv(db')
      && (from != "" && into != "" && from != into && readable ==> !OwnsSomething(db', from))
  {
    if from != into {
      var db' := RequalifyAll(Moved(db, from, into), order);
      MergeHasOutcome(db, from, into, order);
      OutcomeIsSound(db, from, into, db');
      forall k | k in db'
        ensures !Names(db'[k], from)
      {
        OutcomeForgets(db, from, into, db', k);
      }
    }
  }

  /** A departure line is found again wherever its thread ends up. */
  lemma DepartureLineArrives(db: Db, from: UserId, into: UserId, db': Db, o: ConvId)
    requires GlobalInv(db) && from != into && Clean(into) && Outcome(db, from, into, db')
    requires o in db && !WithSelf(db[o], from, into) && Mentions(db[o], from)
    ensures exists k :: k in db' && PointsAt(db'[k], from)
  {
    var j: nat :| j < |db[o].messages| && DepartureLine(db[o].messages[j], from);
    var k, i := NoMessageIsLost(db, from, into, db', o, j);
    assert DepartureLine(db'[k].messages[i], from);
    assert PointsAt(db'[k], from);
  }

  lemma DepartureLineCameAlong(db: Db, from: UserId, into: UserId, db': Db, k: ConvId)
    requires GlobalInv(db) && from != into && Clean(into) && Outcome(db, from, into, db')
    requires k in db' && PointsAt(db'[k], from)
    ensures exists o :: o in db && !WithSelf(db[o], from, into) && Mentions(db[o], from)
  {
    OutcomeForgets(db, from, into, db', k);
    var i: nat :| i < |db'[k].messages| && DepartureLine(db'[k].messages[i], from);
    ShapeIsExact(db, from, into, db', k);
    var o, j := OnlyDepartureLinesStay(db, from, into, k, db'[k], i);
    if WithSelf(db[o], from, into) {
      NothingComesFromSelf(db, from, into, db', o, k);
    }
    assert Mentions(db[o], from);
  }

  /** What still leads back to the guest after a delivery that was neither refused nor raised, exactly:
      the lines that say they left, in the threads that were not lost. */
  lemma WhatStillNamesTheGuest(
    db: Db, accounts: set<UserId>, readable: bool, from: UserId, into: UserId, order: seq<ConvId>)
    requires GlobalInv(db) && Clean(into) && Lists(order, Stale(db, from))
    requires from != "" && into != "" && from != into && readable
    requires UserMerged(db, accounts, readable, from, into, order).Returned?
    ensures var db' := UserMerged(db, accounts, readable, from, into, order).db;
      (exists k :: k in db' && PointsAt(db'[k], from)) <==>
        exists o :: o in db && !WithSelf(db[o], from, into) && Mentions(db[o], from)
  {
    var db' := UserMerged(db, accounts, readable, from, into, order).db;
    if OwnsSomething(db, from) {
      MergeHasOutcome(db, from, into, order);
      if k :| k in db' && PointsAt(db'[k], from) {
        DepartureLineCameAlong(db, from, into, db', k);
      }
      if o :| o in db && !WithSelf(db[o], from, into) && Mentions(db[o], from) {
        DepartureLineArrives(db, from, into, db', o);
      }
    } else {
      UnownedThreads(db, from, into);
    }
  }

  lemma UnownedThreads(db: Db, from: UserId, into: UserId)
    requires !OwnsSomething(db, from)
    ensures (exists k :: k in db && PointsAt(db[k], from)) <==>
      exists o :: o in db && !WithSelf(db[o], from, into) && Mentions(db[o], from)
  {
    if k :| k in db && PointsAt(db[k], from) {
      assert !Names(db[k], from);
      assert from in {from, into};
    }
    if o :| o in db && !WithSelf(db[o], from, into) && Mentions(db[o], from) {
      assert PointsAt(db[o], from);
    }
  }

  /** At-least-once delivery: the same event again, whenever it comes, changes nothing. */
  lemma RedeliveryChangesNothing(db: Db, accounts: set<UserId>, later: set<UserId>, readable: bool,
    from: UserId, into: UserId, order: seq<ConvId>, again: seq<ConvId>)
    requires GlobalInv(db) && Clean(into) && Lists(order, Stale(db, from))
    requires UserMerged(db, accounts, readable, from, into, order).Returned?
    ensures var db' := UserMerged(db, accounts, readable, from, into, order).db;
      UserMerged(db', later, readable, from, into, again) == Returned(db')
  {
    UserMergedKeepsInv(db, accounts, readable, from, into, order);
  }
}
