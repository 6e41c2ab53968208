/** `user.merged`: one account's rows move to another, and the direct threads whose two people have
    changed are keyed again, folded into the thread that already carries the key, or dropped. */
module Merge {
  import opened Text
  import opened Rows
  import opened Journal
  import opened DirectKey
  import opened Store

  // ── The handler ──────────────────────────────────────────────────────────

  predicate Authors(c: Conversation, user: UserId) {
    exists i | 0 <= i < |c.messages| :: c.messages[i].sender == Some(user)
  }

  /** A row of this conversation points at the user. */
  predicate Names(c: Conversation, user: UserId) {
    user in c.members || Authors(c, user) || c.operator == Some(user)
  }

  /** The system line a departure posts. It has no author: the user is spelled out in its body, where
      no rewrite of columns reaches. */
  predicate DepartureLine(m: Message, user: UserId) {
    m.kind.SystemLine? && m.body == LEFT_MARKER + ":" + user
  }

  predicate Mentions(c: Conversation, user: UserId) {
    exists i | 0 <= i < |c.messages| :: DepartureLine(c.messages[i], user)
  }

  /** Everything the module itself writes that leads back to the user. */
  predicate PointsAt(c: Conversation, user: UserId) {
    Names(c, user) || Mentions(c, user)
  }

  predicate OwnsSomething(db: Db, user: UserId) {
    exists k | k in db :: Names(db[k], user)
  }

  /** The messages, memberships and assignments, moved wholesale. */
  function Moved(db: Db, from: UserId, into: UserId): Db {
    map k | k in db :: Rename(db[k], from, into)
  }

  /** The direct threads the guest sat in. */
  function Stale(db: Db, from: UserId): set<ConvId> {
    set k | k in db && db[k].kind.Direct? && from in db[k].members
  }

  datatype Fate = Dead | Unmoved | Rekeyed | FoldedInto(winner: ConvId)

  function Rivals(db: Db, k: ConvId, key: string): set<ConvId> {
    set w | w in db && w != k && db[w].kind.Direct? && db[w].directKey == key
  }

  ghost function Pick(ids: set<ConvId>): (k: ConvId)
    requires ids != {}
    ensures k in ids
  {
    var k :| k in ids;
    k
  }

  /** What becomes of a direct thread whose people changed. */
  ghost function FateOf(db: Db, k: ConvId): Fate
    requires k in db
  {
    var c := db[k];
    if |c.members| < 2 then Dead
    else if KeyOf(c) == c.directKey then Unmoved
    else if Rivals(db, k, KeyOf(c)) == {} then Rekeyed
    else FoldedInto(Pick(Rivals(db, k, KeyOf(c))))
  }

  ghost function Requalify(db: Db, k: ConvId): Db
    requires k in db
  {
    match FateOf(db, k)
    case Dead => db - {k}
    case Unmoved => db
    case Rekeyed => db[k := db[k].(directKey := KeyOf(db[k]))]
    case FoldedInto(w) => (db - {k})[w := Adopt(db[w], db[k])]
  }

  /** The stale threads are settled one by one, in whatever order the query lists them. */
  ghost function RequalifyAll(db: Db, order: seq<ConvId>): Db {
    if order == [] then db
    else
      var before := RequalifyAll(db, order[..|order| - 1]);
      var k := order[|order| - 1];
      if k in before then Requalify(before, k) else before
  }

  function Elements(order: seq<ConvId>): set<ConvId> {
    set k | k in order
  }

  ghost predicate NoRepeats(order: seq<ConvId>) {
    forall i, j | 0 <= i < j < |order| :: order[i] != order[j]
  }

  ghost predicate Lists(order: seq<ConvId>, ids: set<ConvId>) {
    Elements(order) == ids && NoRepeats(order)
  }

  datatype Outcome = Returned(db: Db) | MergeTargetNotReady

  /** `readable`: both ids can address a row at all. A raise leaves the store as it was. */
  ghost function UserMerged(db: Db, accounts: set<UserId>, readable: bool, from: UserId, into: UserId,
    order: seq<ConvId>): Outcome
  {
    if from == "" || into == "" || from == into || !readable || !OwnsSomething(db, from) then Returned(db)
    else if into !in accounts then MergeTargetNotReady
    else Returned(RequalifyAll(Moved(db, from, into), order))
  }

  /** The delivery carries something over. */
  predicate Carries(db: Db, accounts: set<UserId>, readable: bool, from: UserId, into: UserId) {
    from != "" && into != "" && from != into && readable && OwnsSomething(db, from) && into in accounts
  }

  // ── Who sits where after the move ────────────────────────────────────────

  lemma MovedMembers(c: Conversation, from: UserId, into: UserId)
    requires from != into
    ensures Rename(c, from, into).members.Keys ==
      if from in c.members then c.members.Keys - {from} + {into} else c.members.Keys
  {
  }

  lemma OtherSide(c: Conversation, from: UserId) returns (other: UserId)
    requires DirectSound(c) && c.kind.Direct? && from in c.members
    ensures Between(c, from, other)
  {
    var a, b :| Between(c, a, b);
    other := if a == from then b else a;
    KeyIsSymmetric(c.scope, a, b, c.subjectType, c.subjectKey);
  }

  /** A stale thread was between the guest and somebody else, who may be the survivor. */
  lemma StaleThread(db: Db, from: UserId, into: UserId, k: ConvId) returns (other: UserId)
    requires GlobalInv(db) && from != into && k in Stale(db, from)
    ensures Between(db[k], from, other)
    ensures Moved(db, from, into)[k].members.Keys == {into, other}
    ensures |Moved(db, from, into)[k].members| < 2 <==> other == into
  {
    other := OtherSide(db[k], from);
    MovedMembers(db[k], from, into);
    PairSize(Moved(db, from, into)[k], into, other);
  }

  lemma PairSize(c: Conversation, a: UserId, b: UserId)
    requires c.members.Keys == {a, b}
    ensures |c.members| == if a == b then 1 else 2
  {
    assert |c.members| == |c.members.Keys|;
  }

  /** A stale thread that is still between two people, and the key it should carry. */
  ghost predicate Living(moved: Db, k: ConvId) {
    k in moved && |moved[k].members| >= 2
  }

  lemma LivingKey(db: Db, from: UserId, into: UserId, k: ConvId) returns (other: UserId)
    requires GlobalInv(db) && from != into && k in Stale(db, from) && Living(Moved(db, from, into), k)
    ensures Between(db[k], from, other) && other != into
    ensures Moved(db, from, into)[k].members.Keys == {into, other}
    ensures KeyOf(Moved(db, from, into)[k]) == Key(db[k].scope, into, other, db[k].subjectType, db[k].subjectKey)
  {
    other := StaleThread(db, from, into, k);
    KeyOfPair(Moved(db, from, into)[k], into, other);
  }

  /** No key still built with the guest equals a key built without. */
  lemma GuestKeyDiffers(db: Db, from: UserId, into: UserId, k: ConvId, l: ConvId)
    requires GlobalInv(db) && from != into && Clean(into)
    requires k in Stale(db, from) && Living(Moved(db, from, into), k) && l in Stale(db, from)
    ensures KeyOf(Moved(db, from, into)[k]) != db[l].directKey
  {
    var x := LivingKey(db, from, into, k);
    var y := StaleThread(db, from, into, l);
    var c, d := db[k], db[l];
    assert DirectSound(c) && DirectSound(d);
    if KeyOf(Moved(db, from, into)[k]) == d.directKey {
      KeyIsInjective(c.scope, into, x, c.subjectType, c.subjectKey, d.scope, from, y, d.subjectType, d.subjectKey);
    }
  }

  /** Two stale threads never claim the same new key. */
  lemma NewKeysDiffer(db: Db, from: UserId, into: UserId, k: ConvId, l: ConvId)
    requires GlobalInv(db) && from != into && Clean(into) && k != l
    requires k in Stale(db, from) && Living(Moved(db, from, into), k)
    requires l in Stale(db, from) && Living(Moved(db, from, into), l)
    ensures KeyOf(Moved(db, from, into)[k]) != KeyOf(Moved(db, from, into)[l])
  {
    var x := LivingKey(db, from, into, k);
    var y := LivingKey(db, from, into, l);
    var c, d := db[k], db[l];
    assert DirectSound(c) && DirectSound(d);
    assert !SameKey(c, d);
    if KeyOf(Moved(db, from, into)[k]) == KeyOf(Moved(db, from, into)[l]) {
      SamePeopleSameKey(c, d, from, into, x, y);
    }
  }

  lemma SamePeopleSameKey(c: Conversation, d: Conversation, from: UserId, into: UserId, x: UserId, y: UserId)
    requires DirectSound(c) && DirectSound(d) && c.kind.Direct? && d.kind.Direct?
    requires Between(c, from, x) && Between(d, from, y) && Clean(into) && x != into && y != into
    requires Key(c.scope, into, x, c.subjectType, c.subjectKey) == Key(d.scope, into, y, d.subjectType, d.subjectKey)
    ensures SameKey(c, d)
  {
    KeyIsInjective(c.scope, into, x, c.subjectType, c.subjectKey, d.scope, into, y, d.subjectType, d.subjectKey);
  }

  // ── Settling in any order ────────────────────────────────────────────────

  ghost predicate NotItsKey(moved: Db, k: ConvId, l: ConvId) {
    k in moved && l in moved && (Living(moved, k) ==> KeyOf(moved[k]) != moved[l].directKey)
  }

  ghost predicate KeysDiffer(moved: Db, k: ConvId, l: ConvId) {
    Living(moved, k) && Living(moved, l) ==> KeyOf(moved[k]) != KeyOf(moved[l])
  }

  /** No stale thread still carries a key that another is about to take, and no two want the same. */
  ghost predicate Disentangled(moved: Db, stale: set<ConvId>) {
    && (forall k, l | k in stale && l in stale :: NotItsKey(moved, k, l))
    && (forall k, l | k in stale && l in stale && k != l :: KeysDiffer(moved, k, l))
  }

  lemma MergeDisentangles(db: Db, from: UserId, into: UserId)
    requires GlobalInv(db) && from != into && Clean(into)
    ensures Disentangled(Moved(db, from, into), Stale(db, from))
  {
    var moved := Moved(db, from, into);
    forall k, l | k in Stale(db, from) && l in Stale(db, from)
      ensures NotItsKey(moved, k, l)
    {
      if Living(moved, k) {
        GuestKeyDiffers(db, from, into, k, l);
      }
    }
    forall k, l | k in Stale(db, from) && l in Stale(db, from) && k != l
      ensures KeysDiffer(moved, k, l)
    {
      if Living(moved, k) && Living(moved, l) {
        NewKeysDiffer(db, from, into, k, l);
      }
    }
  }

  predicate Vanishes(fate: Fate) {
    fate.Dead? || fate.FoldedInto?
  }

  ghost predicate FoldsInto(moved: Db, l: ConvId, w: ConvId) {
    l in moved && FateOf(moved, l) == FoldedInto(w)
  }

  ghost function LosersOf(moved: Db, done: set<ConvId>, w: ConvId): set<ConvId> {
    set l | l in done && FoldsInto(moved, l, w)
  }

  /** What thread `k` looks like once the threads in `done` are settled. */
  ghost function Final(moved: Db, done: set<ConvId>, k: ConvId): Conversation
    requires k in moved && (k in done ==> Living(moved, k))
  {
    if k in done then moved[k].(directKey := KeyOf(moved[k]))
    else if LosersOf(moved, done, k) == {} then moved[k]
    else Adopt(moved[k], moved[Pick(LosersOf(moved, done, k))])
  }

  ghost predicate Remains(moved: Db, done: set<ConvId>, k: ConvId) {
    k in moved && !(k in done && Vanishes(FateOf(moved, k)))
  }

  /** Not a function of the order: only of the set of threads already settled. */
  ghost predicate Settled(moved: Db, done: set<ConvId>, db': Db) {
    && (forall k :: k in db' <==> Remains(moved, done, k))
    && (forall k | k in db' :: db'[k] == Final(moved, done, k))
  }

  /** A thread somebody folds into was never stale itself. */
  lemma WinnerIsNotStale(moved: Db, stale: set<ConvId>, k: ConvId, w: ConvId)
    requires Disentangled(moved, stale) && k in stale && FoldsInto(moved, k, w)
    ensures w in moved && w != k && moved[w].kind.Direct? && moved[w].directKey == KeyOf(moved[k])
    ensures Living(moved, k) && w !in stale
  {
    assert w in Rivals(moved, k, KeyOf(moved[k]));
    assert w in stale ==> NotItsKey(moved, k, w);
  }

  lemma OneLoserEach(moved: Db, stale: set<ConvId>, k: ConvId, l: ConvId, w: ConvId)
    requires Disentangled(moved, stale) && k in stale && l in stale
    requires FoldsInto(moved, k, w) && FoldsInto(moved, l, w)
    ensures k == l
  {
    WinnerIsNotStale(moved, stale, k, w);
    WinnerIsNotStale(moved, stale, l, w);
    assert k != l ==> KeysDiffer(moved, k, l);
  }

  lemma NobodyFoldsIntoStale(moved: Db, stale: set<ConvId>, done: set<ConvId>, k: ConvId)
    requires Disentangled(moved, stale) && k in stale && done <= stale
    ensures LosersOf(moved, done, k) == {}
  {
    if l :| l in done && FoldsInto(moved, l, k) {
      WinnerIsNotStale(moved, stale, l, k);
    }
  }

  /** Settling the others neither adds nor removes a holder of the key thread `k` wants. */
  lemma RivalStays(moved: Db, stale: set<ConvId>, done: set<ConvId>, db': Db, k: ConvId, w: ConvId)
    requires Disentangled(moved, stale) && k in stale && done <= stale - {k}
    requires Settled(moved, done, db') && Living(moved, k)
    ensures w in Rivals(db', k, KeyOf(moved[k])) <==> w in Rivals(moved, k, KeyOf(moved[k]))
  {
    if w in stale {
      assert NotItsKey(moved, k, w);
      assert w != k ==> KeysDiffer(moved, k, w);
    }
  }

  /** Settling the others first makes no difference to thread `k`. */
  lemma FateStays(moved: Db, stale: set<ConvId>, done: set<ConvId>, db': Db, k: ConvId)
    requires Disentangled(moved, stale) && k in stale && done <= stale - {k}
    requires Settled(moved, done, db')
    ensures k in moved && k in db' && db'[k] == moved[k]
    ensures FateOf(db', k) == FateOf(moved, k)
  {
    assert NotItsKey(moved, k, k);
    assert Remains(moved, done, k);
    NobodyFoldsIntoStale(moved, stale, done, k);
    if Living(moved, k) {
      forall w
        ensures w in Rivals(db', k, KeyOf(moved[k])) <==> w in Rivals(moved, k, KeyOf(moved[k]))
      {
        RivalStays(moved, stale, done, db', k, w);
      }
      assert Rivals(db', k, KeyOf(moved[k])) == Rivals(moved, k, KeyOf(moved[k]));
    }
  }

  lemma LosersGrow(moved: Db, stale: set<ConvId>, done: set<ConvId>, k: ConvId, w: ConvId)
    requires Disentangled(moved, stale) && k in stale && done <= stale - {k}
    ensures LosersOf(moved, done + {k}, w) == if FoldsInto(moved, k, w) then {k} else LosersOf(moved, done, w)
    ensures FoldsInto(moved, k, w) ==> LosersOf(moved, done, w) == {}
  {
    if FoldsInto(moved, k, w) {
      forall l | l in done && FoldsInto(moved, l, w)
        ensures false
      {
        OneLoserEach(moved, stale, k, l, w);
      }
    }
  }

  lemma SettledRemains(moved: Db, stale: set<ConvId>, done: set<ConvId>, db': Db, k: ConvId, j: ConvId)
    requires Disentangled(moved, stale) && k in stale && done <= stale - {k}
    requires k in moved && k in db' && FateOf(db', k) == FateOf(moved, k)
    requires j in db' <==> Remains(moved, done, j)
    ensures j in Requalify(db', k) <==> Remains(moved, done + {k}, j)
  {
    if FoldsInto(moved, k, j) {
      WinnerIsNotStale(moved, stale, k, j);
    }
    if FateOf(moved, k).FoldedInto? {
      WinnerIsNotStale(moved, stale, k, FateOf(moved, k).winner);
    }
  }

  lemma SettledSelf(moved: Db, stale: set<ConvId>, done: set<ConvId>, db': Db, k: ConvId)
    requires Disentangled(moved, stale) && k in stale
    requires k in moved && k in db' && db'[k] == moved[k] && FateOf(db', k) == FateOf(moved, k)
    ensures k in Requalify(db', k) ==> Living(moved, k) && Requalify(db', k)[k] == Final(moved, done + {k}, k)
  {
    if FateOf(moved, k).FoldedInto? {
      WinnerIsNotStale(moved, stale, k, FateOf(moved, k).winner);
    }
  }

  lemma SettledWinner(moved: Db, stale: set<ConvId>, done: set<ConvId>, db': Db, k: ConvId, j: ConvId)
    requires Disentangled(moved, stale) && k in stale && done <= stale - {k} && FoldsInto(moved, k, j)
    requires k in db' && db'[k] == moved[k] && FateOf(db', k) == FateOf(moved, k)
    requires j in db' && j in moved && (j !in done && LosersOf(moved, done, j) == {} ==> db'[j] == moved[j])
    ensures j in Requalify(db', k) && j !in done + {k} && Requalify(db', k)[j] == Final(moved, done + {k}, j)
  {
    LosersGrow(moved, stale, done, k, j);
    WinnerIsNotStale(moved, stale, k, j);
    assert LosersOf(moved, done + {k}, j) == {k};
    assert Requalify(db', k)[j] == Adopt(db'[j], db'[k]);
  }

  /** Where the fold does not reach, nothing changes. */
  lemma SettledBystander(moved: Db, stale: set<ConvId>, done: set<ConvId>, db': Db, k: ConvId, j: ConvId)
    requires Disentangled(moved, stale) && k in stale && done <= stale - {k} && j != k
    requires !FoldsInto(moved, k, j) && k in moved && k in db' && FateOf(db', k) == FateOf(moved, k)
    requires j in db' && Remains(moved, done, j)
    ensures j in Requalify(db', k) && Requalify(db', k)[j] == db'[j]
    ensures (j in done + {k} ==> Living(moved, j)) && Final(moved, done + {k}, j) == Final(moved, done, j)
  {
    LosersGrow(moved, stale, done, k, j);
  }

  lemma SettledOther(moved: Db, stale: set<ConvId>, done: set<ConvId>, db': Db, k: ConvId, j: ConvId)
    requires Disentangled(moved, stale) && k in stale && done <= stale - {k} && j != k
    requires k in moved && k in db' && db'[k] == moved[k] && FateOf(db', k) == FateOf(moved, k)
    requires j in db' && Remains(moved, done, j) && db'[j] == Final(moved, done, j)
    ensures j in Requalify(db', k) && Requalify(db', k)[j] == Final(moved, done + {k}, j)
  {
    if FoldsInto(moved, k, j) {
      SettledWinner(moved, stale, done, db', k, j);
    } else {
      SettledBystander(moved, stale, done, db', k, j);
    }
  }

  lemma SettleOne(moved: Db, stale: set<ConvId>, done: set<ConvId>, db': Db, k: ConvId)
    requires Disentangled(moved, stale) && k in stale && done <= stale - {k}
    requires Settled(moved, done, db')
    ensures k in db' && Settled(moved, done + {k}, Requalify(db', k))
  {
    FateStays(moved, stale, done, db', k);
    var after := Requalify(db', k);
    SettledSelf(moved, stale, done, db', k);
    forall j
      ensures j in after <==> Remains(moved, done + {k}, j)
      ensures j in after ==> after[j] == Final(moved, done + {k}, j)
    {
      SettledRemains(moved, stale, done, db', k, j);
      if j in after && j != k {
        SettledOther(moved, stale, done, db', k, j);
      }
    }
  }

  /** Whatever the order, the outcome is the same one. */
  lemma {:induction false} AnyOrderSettles(moved: Db, stale: set<ConvId>, order: seq<ConvId>)
    requires Disentangled(moved, stale) && Elements(order) <= stale && NoRepeats(order)
    ensures Settled(moved, Elements(order), RequalifyAll(moved, order))
  {
    if order == [] {
      forall k
        ensures LosersOf(moved, {}, k) == {}
      {
      }
    } else {
      var front, k := order[..|order| - 1], order[|order| - 1];
      assert order == front + [k];
      assert Elements(order) == Elements(front) + {k};
      AnyOrderSettles(moved, stale, front);
      SettleOne(moved, stale, Elements(front), RequalifyAll(moved, front), k);
    }
  }

  lemma SettledIsUnique(moved: Db, done: set<ConvId>, one: Db, two: Db)
    requires Settled(moved, done, one) && Settled(moved, done, two)
    ensures one == two
  {
    assert one.Keys == two.Keys;
  }

  lemma OrderDoesNotMatter(db: Db, from: UserId, into: UserId, order: seq<ConvId>, order': seq<ConvId>)
    requires GlobalInv(db) && from != into && Clean(into)
    requires Lists(order, Stale(db, from)) && Lists(order', Stale(db, from))
    ensures RequalifyAll(Moved(db, from, into), order) == RequalifyAll(Moved(db, from, into), order')
  {
    MergeDisentangles(db, from, into);
    var moved, stale := Moved(db, from, into), Stale(db, from);
    AnyOrderSettles(moved, stale, order);
    AnyOrderSettles(moved, stale, order');
    SettledIsUnique(moved, stale, RequalifyAll(moved, order), RequalifyAll(moved, order'));
  }

  lemma MovedKeysStayApart(db: Db, from: UserId, into: UserId)
    requires OneThreadPerKey(db)
    ensures OneThreadPerKey(Moved(db, from, into))
  {
    forall j, k | j in db && k in db && j != k
      ensures !SameKey(Moved(db, from, into)[j], Moved(db, from, into)[k])
    {
      assert !SameKey(db[j], db[k]);
    }
  }

  /** A thread folds into whichever thread carries the key it should have. */
  lemma FoldsWhereTheKeyIs(db: Db, k: ConvId, w: ConvId)
    requires k in db && w in db && k != w && OneThreadPerKey(db)
    requires |db[k].members| >= 2 && KeyOf(db[k]) != db[k].directKey
    requires db[w].kind.Direct? && db[w].directKey == KeyOf(db[k])
    ensures FoldsInto(db, k, w)
  {
    var rivals := Rivals(db, k, KeyOf(db[k]));
    assert w in rivals;
    assert Pick(rivals) != w ==> !SameKey(db[Pick(rivals)], db[w]);
  }
}
