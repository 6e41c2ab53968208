/** Who is on the left list, told from the history of the thread alone. */
module LeftList {
  import opened Text
  import opened Rows
  import opened Journal
  import opened Readers

  /** A departure that takes effect. */
  predicate Departs(c: Conversation, op: Op, user: UserId) {
    op.Leaving? && op.user == user && InInbox(c, user) && Inserts(c, LeftLine(user, op.line, op.at))
  }

  /** The user takes the departure back, or somebody, anybody, writes. */
  predicate Returns(c: Conversation, op: Op, user: UserId) {
    || (op.Rejoining? && op.user == user)
    || (op.Posting? && op.draft.sender.Some? && Inserts(c, op.draft))
  }

  lemma StepMovesTheList(c: Conversation, op: Op, user: UserId)
    requires user in c.members && !(op.Renaming? && op.from == user)
    ensures user in Apply(c, op).members
    ensures InLeft(Apply(c, op), user) <==> Departs(c, op, user) || (InLeft(c, user) && !Returns(c, op, user))
  {
  }

  /** Which steps of the run took the user off the list... */
  function Departures(c: Conversation, ops: seq<Op>, user: UserId): (marks: seq<bool>)
    ensures |marks| == |ops|
  {
    if ops == [] then []
    else
      var n := |ops| - 1;
      Departures(c, ops[..n], user) + [Departs(Run(c, ops[..n]), ops[n], user)]
  }

  /** ... and which brought them back. */
  function Comebacks(c: Conversation, ops: seq<Op>, user: UserId): (marks: seq<bool>)
    ensures |marks| == |ops|
  {
    if ops == [] then []
    else
      var n := |ops| - 1;
      Comebacks(c, ops[..n], user) + [Returns(Run(c, ops[..n]), ops[n], user)]
  }

  /** Step `i` was a departure, and nothing after it a return. */
  ghost predicate LastWord(departures: seq<bool>, comebacks: seq<bool>, i: int)
    requires |departures| == |comebacks|
  {
    0 <= i < |departures| && departures[i] && forall j | i < j < |comebacks| :: !comebacks[j]
  }

  ghost predicate EndsAway(departures: seq<bool>, comebacks: seq<bool>)
    requires |departures| == |comebacks|
  {
    exists i :: LastWord(departures, comebacks, i)
  }

  ghost predicate Away(c: Conversation, ops: seq<Op>, user: UserId) {
    EndsAway(Departures(c, ops, user), Comebacks(c, ops, user))
  }

  lemma LastMarkDecides(departures: seq<bool>, comebacks: seq<bool>, left: bool, back: bool)
    requires |departures| == |comebacks|
    ensures EndsAway(departures + [left], comebacks + [back]) <==>
      left || (EndsAway(departures, comebacks) && !back)
  {
    var d, r, n := departures + [left], comebacks + [back], |departures|;
    if left {
      assert LastWord(d, r, n);
    }
    if i :| LastWord(departures, comebacks, i) && !back {
      assert LastWord(d, r, i);
    }
    if i :| LastWord(d, r, i) && !left {
      assert !r[n];
      assert forall j | 0 <= j < n :: r[j] == comebacks[j];
      assert LastWord(departures, comebacks, i);
    }
  }

  /** Over every run, a thread is on a person's left list exactly when their own departure is later
      than their last return and than the last line anybody wrote. System lines, edits, deletions,
      erasures, folds, markers and clears count for nothing. */
  lemma {:induction false} OnTheLeftListIffLastWordIsLeave(c: Conversation, ops: seq<Op>, user: UserId)
    requires InInbox(c, user) && KeepsAccount(ops, user)
    ensures user in Run(c, ops).members
    ensures InLeft(Run(c, ops), user) <==> Away(c, ops, user)
  {
    if ops != [] {
      var n := |ops| - 1;
      var before := Run(c, ops[..n]);
      OnTheLeftListIffLastWordIsLeave(c, ops[..n], user);
      StepMovesTheList(before, ops[n], user);
      LastMarkDecides(Departures(c, ops[..n], user), Comebacks(c, ops[..n], user),
        Departs(before, ops[n], user), Returns(before, ops[n], user));
    }
  }

  /** A departure posts one system line naming the leaver, moves no other membership, and a second
      one changes nothing at all. */
  lemma DepartureIsOneLine(c: Conversation, user: UserId, line: MsgId, at: Time)
    ensures var c' := Leave(c, user, line, at);
      if Departs(c, Leaving(user, line, at), user) then
        && |c'.messages| == |c.messages| + 1 && c'.messages[..|c.messages|] == c.messages
        && (var m := c'.messages[|c.messages|];
            m.kind == SystemLine && m.sender == None && m.body == LEFT_MARKER + ":" + user && m.number == c'.lastSeq)
        && c'.members.Keys == c.members.Keys
        && (forall other | other in c.members && other != user :: c'.members[other] == c.members[other])
        && c'.members[user] == c.members[user].(leftAt := Some(at))
      else c' == c
    ensures forall again: MsgId, later :: Departs(c, Leaving(user, line, at), user) ==>
      Leave(Leave(c, user, line, at), user, again, later) == Leave(c, user, line, at)
  {
  }
}
