/** All the conversations together, and what holds of them as a whole. */
module Store {
  import opened Text
  import opened Rows
  import opened Journal
  import opened DirectKey

  type Db = map<ConvId, Conversation>

  // ── Invariant ────────────────────────────────────────────────────────────

  /** No message row sits in two threads. */
  ghost predicate Apart(c: Conversation, d: Conversation) {
    forall i, j | 0 <= i < |c.messages| && 0 <= j < |d.messages| :: c.messages[i].id != d.messages[j].id
  }

  /** A direct thread has these two members and carries their key. */
  ghost predicate Between(c: Conversation, a: UserId, b: UserId) {
    && a != b && Clean(a) && Clean(b)
    && c.members.Keys == {a, b}
    && c.directKey == Key(c.scope, a, b, c.subjectType, c.subjectKey)
  }

  ghost predicate DirectSound(c: Conversation) {
    c.kind.Direct? ==>
      && Clean(c.scope) && Clean(c.subjectType)
      && exists a, b :: Between(c, a, b)
  }

  predicate SameKey(c: Conversation, d: Conversation) {
    c.kind.Direct? && d.kind.Direct? && c.directKey == d.directKey
  }

  ghost predicate AllApart(db: Db) {
    forall j, k | j in db && k in db && j != k :: Apart(db[j], db[k])
  }

  ghost predicate OneThreadPerKey(db: Db) {
    forall j, k | j in db && k in db && j != k :: !SameKey(db[j], db[k])
  }

  ghost predicate GlobalInv(db: Db) {
    && (forall k | k in db :: Inv(db[k]))
    && (forall k | k in db :: DirectSound(db[k]))
    && AllApart(db)
    && OneThreadPerKey(db)
  }

  ghost predicate Absent(c: Conversation, id: MsgId) {
    forall i | 0 <= i < |c.messages| :: c.messages[i].id != id
  }

  ghost predicate Stored(db: Db, id: MsgId) {
    exists k :: k in db && !Absent(db[k], id)
  }

  ghost predicate SameAt(one: Db, two: Db, k: ConvId) {
    (k in one <==> k in two) && (k in two ==> one[k] == two[k])
  }

  lemma SameEverywhere(one: Db, two: Db)
    requires forall k :: SameAt(one, two, k)
    ensures one == two
  {
    forall k
      ensures k in one <==> k in two
      ensures k in two ==> one[k] == two[k]
    {
      assert SameAt(one, two, k);
    }
  }

  // ── The two people of a direct thread ────────────────────────────────────

  predicate LeastIn(u: UserId, users: set<UserId>) {
    u in users && forall v | v in users :: AtMost(u, v)
  }

  lemma {:induction false} AtMostTransitive(a: string, b: string, c: string)
    requires AtMost(a, b) && AtMost(b, c)
    ensures AtMost(a, c)
    decreases |a|
  {
    if a != "" && b != "" && c != "" && a[0] == b[0] && b[0] == c[0] {
      AtMostTransitive(a[1..], b[1..], c[1..]);
    }
  }

  lemma {:induction false} LeastExists(users: set<UserId>)
    requires users != {}
    ensures exists u :: LeastIn(u, users)
    decreases |users|
  {
    var some :| some in users;
    var rest := users - {some};
    OrderTotal(some, some);
    if rest == {} {
      assert users == {some};
      assert LeastIn(some, users);
    } else {
      LeastExists(rest);
      var v :| LeastIn(v, rest);
      OrderTotal(some, v);
      var u := if AtMost(some, v) then some else v;
      forall w | w in users
        ensures AtMost(u, w)
      {
        if w != some && u == some {
          AtMostTransitive(some, v, w);
        }
      }
      assert LeastIn(u, users);
    }
  }

  /** The first of the sorted user ids. */
  ghost function Least(users: set<UserId>): (u: UserId)
    requires users != {}
    ensures LeastIn(u, users)
  {
    LeastExists(users);
    var u :| LeastIn(u, users);
    u
  }

  /** The key a direct thread should carry, given who sits in it: the first two of the sorted ids. */
  ghost function KeyOf(c: Conversation): string
    requires |c.members| >= 2
  {
    var a := Least(c.members.Keys);
    assert |c.members.Keys| >= 2;
    assert c.members.Keys - {a} == {} ==> c.members.Keys == {a};
    var b := Least(c.members.Keys - {a});
    Key(c.scope, a, b, c.subjectType, c.subjectKey)
  }

  lemma KeyOfPair(c: Conversation, a: UserId, b: UserId)
    requires a != b && c.members.Keys == {a, b}
    ensures |c.members| == 2 && KeyOf(c) == Key(c.scope, a, b, c.subjectType, c.subjectKey)
  {
    var first := Least(c.members.Keys);
    assert c.members.Keys - {a} == {b} && c.members.Keys - {b} == {a};
    KeyIsSymmetric(c.scope, a, b, c.subjectType, c.subjectKey);
  }
}
