/** The counter as a ledger: every number it ever reached was given to one row, once. */
module Allocation {
  import opened Rows
  import opened Journal

  /** Between these two states, row `i` was stamped with revision `k`. */
  ghost predicate Stamped(c: Conversation, c': Conversation, i: int, k: int) {
    && 0 <= i < |c'.messages| && c'.messages[i].revision == k
    && (i < |c.messages| ==> c.messages[i].revision != k)
  }

  lemma BlockIsStamped(c: Conversation, user: UserId, at: Time, k: nat) returns (i: nat)
    requires Inv(c) && c.lastSeq < k <= EraseUser(c, user, at).lastSeq
    ensures Stamped(c, EraseUser(c, user, at), i, k)
  {
    i := BlockIsCovered(c.messages, user, k - c.lastSeq);
    ErasedRowMoves(c, user, at, i);
  }

  lemma RowIsStamped(c: Conversation, id: MsgId, body: string, at: Time) returns (i: nat)
    requires Inv(c) && IndexOf(c.messages, id) < |c.messages|
    ensures Stamped(c, EditLocked(c, id, body, at), i, c.lastSeq + 1)
    ensures Stamped(c, DeleteLocked(c, id, at), i, c.lastSeq + 1)
  {
    i := IndexOf(c.messages, id);
  }

  lemma AppendedIsStamped(c: Conversation, op: Op, k: nat)
    requires op.Posting? || op.Leaving?
    requires c.lastSeq < k <= Apply(c, op).lastSeq
    ensures Stamped(c, Apply(c, op), |c.messages|, k)
  {
  }

  lemma AdoptedIsStamped(c: Conversation, loser: Conversation, k: nat)
    requires c.lastSeq < k <= Adopt(c, loser).lastSeq
    ensures Stamped(c, Adopt(c, loser), |c.messages| + (k - c.lastSeq - 1), k)
  {
    var j := k - c.lastSeq - 1;
    assert Adopt(c, loser).messages[|c.messages| + j] == AdoptRows(loser.messages, c.messages, c.lastSeq)[j];
  }

  /** Every number a step adds to the counter is stamped on some row. */
  lemma StepStampsItsNumbers(c: Conversation, op: Op, k: nat) returns (i: nat)
    requires Inv(c)
    requires c.lastSeq < k <= Apply(c, op).lastSeq
    ensures Stamped(c, Apply(c, op), i, k)
  {
    match op {
      case Posting(d) =>
        AppendedIsStamped(c, op, k);
        i := |c.messages|;
      case Leaving(user, line, at) =>
        AppendedIsStamped(c, op, k);
        i := |c.messages|;
      case Editing(copy, editor, text, window, at) => i := RowIsStamped(c, copy.id, text, at);
      case Deleting(copy, actor, at) => i := RowIsStamped(c, copy.id, "", at);
      case Erasing(user, at) => i := BlockIsStamped(c, user, at, k);
      case Adopting(loser) =>
        AdoptedIsStamped(c, loser, k);
        i := |c.messages| + (k - c.lastSeq - 1);
    }
  }

  /** ... and a step stamps nothing else. */
  lemma StampsAreNew(c: Conversation, op: Op, i: int, k: int)
    requires Inv(c) && Admissible(c, op) && Stamped(c, Apply(c, op), i, k)
    ensures c.lastSeq < k <= Apply(c, op).lastSeq
  {
    StepKeepsInv(c, op);
    if i < |c.messages| {
      assert RowMoves(c.messages[i], Apply(c, op).messages[i], c.lastSeq);
    }
  }

  ghost predicate Restamped(c: Conversation, c': Conversation, k: int) {
    exists i :: Stamped(c, c', i, k)
  }

  /** The numbers between the two counters, and no others, were stamped in between. */
  ghost predicate Ticks(c: Conversation, c': Conversation) {
    Grows(c, c') && forall k: int :: Restamped(c, c', k) <==> c.lastSeq < k <= c'.lastSeq
  }

  lemma StepTicks(c: Conversation, op: Op)
    requires Inv(c) && Admissible(c, op)
    ensures Inv(Apply(c, op)) && Ticks(c, Apply(c, op))
  {
    StepKeepsInv(c, op);
    forall k: int
      ensures Restamped(c, Apply(c, op), k) <==> c.lastSeq < k <= Apply(c, op).lastSeq
    {
      if c.lastSeq < k <= Apply(c, op).lastSeq {
        var i := StepStampsItsNumbers(c, op, k);
      }
      if Restamped(c, Apply(c, op), k) {
        var i :| Stamped(c, Apply(c, op), i, k);
        StampsAreNew(c, op, i, k);
      }
    }
  }

  // ── Runs ─────────────────────────────────────────────────────────────────

  ghost predicate StepAt(states: seq<Conversation>, ops: seq<Op>, s: int)
    requires 0 <= s < |ops| && |states| == |ops| + 1
  {
    Admissible(states[s], ops[s]) && states[s + 1] == Apply(states[s], ops[s])
  }

  /** The states a run of the thread goes through. */
  ghost predicate IsRun(states: seq<Conversation>, ops: seq<Op>) {
    |states| == |ops| + 1 && forall s | 0 <= s < |ops| :: StepAt(states, ops, s)
  }

  ghost predicate TicksAt(states: seq<Conversation>, s: int)
    requires 0 <= s < |states| - 1
  {
    Ticks(states[s], states[s + 1])
  }

  ghost predicate Chain(states: seq<Conversation>) {
    && |states| > 0
    && (forall s | 0 <= s < |states| :: Inv(states[s]))
    && (forall s | 0 <= s < |states| - 1 :: TicksAt(states, s))
  }

  lemma {:induction false} RunIsChain(states: seq<Conversation>, ops: seq<Op>, n: nat)
    requires IsRun(states, ops) && Inv(states[0]) && n <= |ops|
    ensures Chain(states[..n + 1])
  {
    if n > 0 {
      RunIsChain(states, ops, n - 1);
      var before, upto := states[..n], states[..n + 1];
      assert Inv(before[n - 1]);
      assert StepAt(states, ops, n - 1);
      StepTicks(states[n - 1], ops[n - 1]);
      forall s | 0 <= s < n
        ensures TicksAt(upto, s)
      {
        assert s < n - 1 ==> TicksAt(before, s);
      }
      forall s | 0 <= s < n + 1
        ensures Inv(upto[s])
      {
        assert s < n ==> Inv(before[s]);
      }
    }
  }

  lemma {:induction false} ChainGrows(states: seq<Conversation>, a: nat, b: nat)
    requires Chain(states) && a <= b < |states|
    ensures Grows(states[a], states[b])
  {
    if a < b {
      ChainGrows(states, a, b - 1);
      assert TicksAt(states, b - 1);
      GrowsTransitive(states[a], states[b - 1], states[b]);
    } else {
      MembersAloneKeepInv(states[a], states[a]);
    }
  }

  lemma CounterNeverFalls(states: seq<Conversation>, a: nat, b: nat)
    requires Chain(states) && a <= b < |states|
    ensures states[a].lastSeq <= states[b].lastSeq
  {
    ChainGrows(states, a, b);
  }

  /** Step `s` of the run stamped row `i` with number `k`. */
  ghost predicate StampedAt(states: seq<Conversation>, s: int, i: int, k: int) {
    0 <= s < |states| - 1 && Stamped(states[s], states[s + 1], i, k)
  }

  ghost predicate Allocated(states: seq<Conversation>, k: int) {
    exists s, i :: StampedAt(states, s, i, k)
  }

  /** Every number between the first and the last value of the counter was given out... */
  lemma {:induction false} NumberIsAllocated(states: seq<Conversation>, n: nat, k: int) returns (s: nat, i: int)
    requires Chain(states) && n < |states|
    requires states[0].lastSeq < k <= states[n].lastSeq
    ensures s < n && StampedAt(states, s, i, k)
  {
    if k <= states[n - 1].lastSeq {
      s, i := NumberIsAllocated(states, n - 1, k);
    } else {
      s := n - 1;
      assert TicksAt(states, s) && Restamped(states[s], states[s + 1], k);
      i :| Stamped(states[s], states[s + 1], i, k);
    }
  }

  lemma StampLiesInItsStep(states: seq<Conversation>, s: int, i: int, k: int)
    requires Chain(states) && StampedAt(states, s, i, k)
    ensures states[s].lastSeq < k <= states[s + 1].lastSeq
  {
    assert TicksAt(states, s) && Restamped(states[s], states[s + 1], k);
  }

  lemma LaterStampsAreLarger(states: seq<Conversation>, s: int, i: int, k: int, t: int, j: int, l: int)
    requires Chain(states) && s < t && StampedAt(states, s, i, k) && StampedAt(states, t, j, l)
    ensures k < l
  {
    StampLiesInItsStep(states, s, i, k);
    StampLiesInItsStep(states, t, j, l);
    CounterNeverFalls(states, s + 1, t);
  }

  /** ... to one row, in one step. */
  lemma NumberIsAllocatedOnce(states: seq<Conversation>, k: int, s: int, i: int, t: int, j: int)
    requires Chain(states) && StampedAt(states, s, i, k) && StampedAt(states, t, j, k)
    ensures s == t && i == j
  {
    if s < t {
      LaterStampsAreLarger(states, s, i, k, t, j, k);
    } else if t < s {
      LaterStampsAreLarger(states, t, j, k, s, i, k);
    } else {
      assert Numbered(states[s + 1].messages, states[s + 1].lastSeq);
    }
  }

  lemma AllocatedIff(states: seq<Conversation>, k: int)
    requires Chain(states) && states[0].lastSeq == 0
    ensures Allocated(states, k) <==> 1 <= k <= states[|states| - 1].lastSeq
  {
    if 1 <= k <= states[|states| - 1].lastSeq {
      var s, i := NumberIsAllocated(states, |states| - 1, k);
    }
    if s, i :| StampedAt(states, s, i, k) {
      StampLiesInItsStep(states, s, i, k);
      CounterNeverFalls(states, s + 1, |states| - 1);
      CounterNeverFalls(states, 0, s);
    }
  }

  /** The gapless set: on a thread that starts empty, the numbers `1..lastSeq` and no others were
      given out, each exactly once, whatever was posted, edited, deleted, erased, folded in,
      refused or rolled back on the way. */
  lemma AllocatedNumbersAreGapless(states: seq<Conversation>, ops: seq<Op>)
    requires IsRun(states, ops) && Inv(states[0]) && states[0].messages == []
    ensures forall k: int :: Allocated(states, k) <==> 1 <= k <= states[|ops|].lastSeq
    ensures forall k, s, i, t, j :: StampedAt(states, s, i, k) && StampedAt(states, t, j, k) ==> s == t && i == j
  {
    RunIsChain(states, ops, |ops|);
    assert states[..|ops| + 1] == states;
    forall k: int
      ensures Allocated(states, k) <==> 1 <= k <= states[|ops|].lastSeq
    {
      AllocatedIff(states, k);
    }
    forall k, s, i, t, j | StampedAt(states, s, i, k) && StampedAt(states, t, j, k)
      ensures s == t && i == j
    {
      NumberIsAllocatedOnce(states, k, s, i, t, j);
    }
  }

  // ── The places alone ─────────────────────────────────────────────────────

  /** Some message sits at place `k`. */
  ghost predicate Placed(rows: seq<Message>, k: int) {
    exists i :: 0 <= i < |rows| && rows[i].number == k
  }

  ghost predicate PlacesAreGapless(c: Conversation) {
    forall k :: 1 <= k <= c.lastSeq ==> Placed(c.messages, k)
  }

  /** No row was ever stamped a second time. */
  ghost predicate NeverRevised(c: Conversation) {
    forall i | 0 <= i < |c.messages| :: c.messages[i].revision == c.messages[i].number
  }

  lemma {:induction false} FullPlacesFixRevisions(c: Conversation, k: nat)
    requires Inv(c) && PlacesAreGapless(c) && 1 <= k <= c.lastSeq + 1
    ensures forall i | 0 <= i < |c.messages| && c.messages[i].number >= k ::
      c.messages[i].revision == c.messages[i].number
    decreases c.lastSeq + 1 - k
  {
    if k <= c.lastSeq {
      FullPlacesFixRevisions(c, k + 1);
      forall i | 0 <= i < |c.messages| && c.messages[i].number == k
        ensures c.messages[i].revision == k
      {
        var r := c.messages[i].revision;
        assert Placed(c.messages, r);
        var j :| 0 <= j < |c.messages| && c.messages[j].number == r;
      }
    }
  }

  /** On a row that was never revised, the place is the number it was stamped with. */
  lemma UnrevisedStampIsPlace(states: seq<Conversation>, n: nat, k: nat)
    requires Chain(states) && n < |states| && NeverRevised(states[n])
    requires states[0].lastSeq < k <= states[n].lastSeq
    ensures Placed(states[n].messages, k)
  {
    var s, i := NumberIsAllocated(states, n, k);
    ChainGrows(states, s + 1, n);
    assert Inv(states[s + 1]);
    assert RowMoves(states[s + 1].messages[i], states[n].messages[i], states[s + 1].lastSeq);
    assert states[n].messages[i].number == k;
  }

  /** `seq` alone is gapless exactly as long as nothing was edited, deleted or erased: the counter
      is shared, so any later stamp takes a number no message sits at. */
  lemma PlacesAreGaplessIffNeverRevised(states: seq<Conversation>, ops: seq<Op>)
    requires IsRun(states, ops) && Inv(states[0]) && states[0].messages == []
    ensures PlacesAreGapless(states[|ops|]) <==> NeverRevised(states[|ops|])
  {
    RunIsChain(states, ops, |ops|);
    assert states[..|ops| + 1] == states;
    assert Inv(states[|ops|]);
    if PlacesAreGapless(states[|ops|]) {
      FullPlacesFixRevisions(states[|ops|], 1);
    }
    if NeverRevised(states[|ops|]) {
      forall k: nat | 1 <= k <= states[|ops|].lastSeq
        ensures Placed(states[|ops|].messages, k)
      {
        UnrevisedStampIsPlace(states, |ops|, k);
      }
    }
  }
}
