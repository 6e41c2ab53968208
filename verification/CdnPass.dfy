/** The backfill row by row: it reads rows in chunks and claims them one at a time, while everybody
    else keeps writing. */
module CdnPass {
  import opened Text
  import opened Rows
  import opened Journal
  import opened Store
  import opened CdnLedger
  import opened CdnRuns

  /** One claim of the pass, on the copy of a row it read some time before, or anybody's step. */
  datatype Turn = Claim(copy: Message) | Elsewhere(step: Step)

  ghost function NextTurn(s: System, turn: Turn): System {
    match turn
    case Claim(copy) => System(s.db, Publish(s.claims, Emit(copy, Backfill)))
    case Elsewhere(step) => Next(s, step)
  }

  ghost function PlayTurns(s: System, turns: seq<Turn>): System {
    if turns == [] then s else NextTurn(PlayTurns(s, turns[..|turns| - 1]), turns[|turns| - 1])
  }

  /** The pass reads live rows only; what is live still has the attachments it read. */
  ghost predicate TurnPermitted(db: Db, turn: Turn) {
    match turn
    case Claim(copy) => copy.Live() && forall k | k in db :: PastCopy(db[k], copy)
    case Elsewhere(step) => Permitted(db, step)
  }

  ghost predicate TurnsPermitted(s: System, turns: seq<Turn>) {
    forall i | 0 <= i < |turns| :: TurnPermitted(PlayTurns(s, turns[..i]).db, turns[i])
  }

  ghost predicate LiveRow(c: Conversation, id: MsgId) {
    exists i :: 0 <= i < |c.messages| && c.messages[i].id == id && c.messages[i].Live()
  }

  ghost predicate LiveIn(db: Db, id: MsgId) {
    exists k :: k in db && LiveRow(db[k], id)
  }

  /** Nobody deleted, erased or dropped the row between its read and its claim, or it carries nothing. */
  ghost predicate Found(db: Db, turn: Turn) {
    turn.Claim? ==> Refs(turn.copy.attachments) == {} || LiveIn(db, turn.copy.id)
  }

  ghost predicate AllFound(s: System, turns: seq<Turn>) {
    forall i | 0 <= i < |turns| :: Found(PlayTurns(s, turns[..i]).db, turns[i])
  }

  // ── One claim ────────────────────────────────────────────────────────────

  lemma ClaimAdds(claims: Claims, copy: Message, id: MsgId)
    requires copy.Live()
    ensures Claimed(Publish(claims, Emit(copy, Backfill)), id) ==
      Claimed(claims, id) + if id == copy.id then Refs(copy.attachments) else {}
  {
    var events := Emit(copy, Backfill);
    if events != [] {
      assert events[..0] == [];
    }
  }

  lemma LiveRowIsTheCopy(s: System, copy: Message, k: ConvId, i: nat)
    requires Tidy(s.db) && TurnPermitted(s.db, Claim(copy)) && LiveIn(s.db, copy.id)
    requires k in s.db && i < |s.db[k].messages| && s.db[k].messages[i].id == copy.id
    ensures s.db[k].messages[i].attachments == copy.attachments
  {
    var j :| j in s.db && LiveRow(s.db[j], copy.id);
    var x :| 0 <= x < |s.db[j].messages| && s.db[j].messages[x].id == copy.id && s.db[j].messages[x].Live();
    OneRowPerId(s.db, j, s.db[j].messages[x], k, s.db[k].messages[i]);
    assert PastCopy(s.db[k], copy);
  }

  lemma FoundClaimFits(s: System, copy: Message, k: ConvId, i: nat)
    requires Good(s, true) && TurnPermitted(s.db, Claim(copy)) && Found(s.db, Claim(copy))
    requires k in s.db && i < |s.db[k].messages|
    ensures Fits(NextTurn(s, Claim(copy)).claims, s.db[k].messages[i], true)
  {
    var m := s.db[k].messages[i];
    ClaimAdds(s.claims, copy, m.id);
    assert ThreadFits(s.claims, s.db[k], true) && Fits(s.claims, m, true);
    if m.id == copy.id && Refs(copy.attachments) != {} {
      LiveRowIsTheCopy(s, copy, k, i);
    }
  }

  lemma FoundClaimKeepsBooks(s: System, copy: Message)
    requires Good(s, true) && TurnPermitted(s.db, Claim(copy)) && Found(s.db, Claim(copy))
    ensures Good(NextTurn(s, Claim(copy)), true)
  {
    var s' := NextTurn(s, Claim(copy));
    forall k | k in s'.db
      ensures ThreadFits(s'.claims, s'.db[k], true)
    {
      forall i | 0 <= i < |s'.db[k].messages|
        ensures Fits(s'.claims, s'.db[k].messages[i], true)
      {
        FoundClaimFits(s, copy, k, i);
      }
    }
    forall id
      ensures Stored(s'.db, id) || Claimed(s'.claims, id) == {}
    {
      ClaimAdds(s.claims, copy, id);
      if id == copy.id && Refs(copy.attachments) != {} {
        var k :| k in s.db && LiveRow(s.db[k], id);
        assert !Absent(s.db[k], id);
      }
    }
  }

  lemma GoodClaimIsFound(s: System, copy: Message)
    requires copy.Live() && Good(NextTurn(s, Claim(copy)), true)
    ensures Found(s.db, Claim(copy))
  {
    var s' := NextTurn(s, Claim(copy));
    ClaimAdds(s.claims, copy, copy.id);
    if Refs(copy.attachments) != {} {
      var k :| k in s.db && !Absent(s.db[k], copy.id);
      var i :| 0 <= i < |s.db[k].messages| && s.db[k].messages[i].id == copy.id;
      assert ThreadFits(s'.claims, s.db[k], true) && Inv(s.db[k]);
      assert Fits(s'.claims, s.db[k].messages[i], true) && Sound(s.db[k].messages[i]);
      assert LiveRow(s.db[k], copy.id);
    }
  }

  /** A claim never says too much exactly when its row is still there and live. */
  lemma ClaimKeepsBooksIff(s: System, copy: Message)
    requires Good(s, true) && TurnPermitted(s.db, Claim(copy))
    ensures Good(NextTurn(s, Claim(copy)), true) <==> Found(s.db, Claim(copy))
  {
    if Found(s.db, Claim(copy)) {
      FoundClaimKeepsBooks(s, copy);
    } else if Good(NextTurn(s, Claim(copy)), true) {
      GoodClaimIsFound(s, copy);
    }
  }

  // ── One id ───────────────────────────────────────────────────────────────

  /** This id is claimed for exactly what its row carries. */
  ghost predicate Exact(s: System, id: MsgId) {
    && (Stored(s.db, id) || Claimed(s.claims, id) == {})
    && forall k, i | k in s.db && 0 <= i < |s.db[k].messages| && s.db[k].messages[i].id == id ::
         Claimed(s.claims, id) == Refs(s.db[k].messages[i].attachments)
  }

  ghost function RowOf(db: Db, id: MsgId): (m: Message)
    requires Stored(db, id)
    ensures InStore(db, m) && m.id == id
  {
    var k :| k in db && !Absent(db[k], id);
    var i :| 0 <= i < |db[k].messages| && db[k].messages[i].id == id;
    db[k].messages[i]
  }

  ghost function Ids(db: Db): set<MsgId> {
    set k, i | k in db && 0 <= i < |db[k].messages| :: db[k].messages[i].id
  }

  /** The claims a store would have with nothing missing. */
  ghost function FullClaims(db: Db): Claims {
    map id | id in Ids(db) && Stored(db, id) :: Refs(RowOf(db, id).attachments)
  }

  lemma FullClaim(db: Db, id: MsgId)
    requires Stored(db, id)
    ensures Claimed(FullClaims(db), id) == Refs(RowOf(db, id).attachments)
  {
    var k :| k in db && !Absent(db[k], id);
    var i :| 0 <= i < |db[k].messages| && db[k].messages[i].id == id;
    assert id in Ids(db);
  }

  lemma TheRowOf(db: Db, k: ConvId, m: Message)
    requires Tidy(db) && k in db && m in db[k].messages
    ensures Stored(db, m.id) && RowOf(db, m.id) == m
  {
    assert !Absent(db[k], m.id);
    var row := RowOf(db, m.id);
    var j :| j in db && row in db[j].messages;
    OneRowPerId(db, j, row, k, m);
  }

  /** The books with this one id as it is, and everybody else's put right. */
  ghost function Righted(s: System, id: MsgId): Claims {
    FullClaims(s.db)[id := Claimed(s.claims, id)]
  }

  lemma RightedClaim(s: System, id: MsgId, other: MsgId)
    ensures Claimed(Righted(s, id), other) == Claimed(if other == id then s.claims else FullClaims(s.db), other)
  {
  }

  lemma RightedFits(s: System, id: MsgId, k: ConvId, i: nat)
    requires Tidy(s.db) && Exact(s, id) && k in s.db && i < |s.db[k].messages|
    ensures Fits(Righted(s, id), s.db[k].messages[i], false)
  {
    var m := s.db[k].messages[i];
    RightedClaim(s, id, m.id);
    TheRowOf(s.db, k, m);
    FullClaim(s.db, m.id);
  }

  lemma RightedUnstored(s: System, id: MsgId, other: MsgId)
    requires Exact(s, id) && !Stored(s.db, other)
    ensures Claimed(Righted(s, id), other) == {}
  {
    RightedClaim(s, id, other);
  }

  lemma RightedIsGood(s: System, id: MsgId)
    requires Tidy(s.db) && Exact(s, id)
    ensures Good(System(s.db, Righted(s, id)), false)
  {
    forall k | k in s.db
      ensures ThreadFits(Righted(s, id), s.db[k], false)
    {
      forall i | 0 <= i < |s.db[k].messages|
        ensures Fits(Righted(s, id), s.db[k].messages[i], false)
      {
        RightedFits(s, id, k, i);
      }
    }
    forall other
      ensures Stored(s.db, other) || Claimed(Righted(s, id), other) == {}
    {
      if !Stored(s.db, other) {
        RightedUnstored(s, id, other);
      }
    }
  }

  lemma GoodIsExact(s: System, id: MsgId)
    requires Good(s, false)
    ensures Exact(s, id)
  {
    forall k, i | k in s.db && 0 <= i < |s.db[k].messages| && s.db[k].messages[i].id == id
      ensures Claimed(s.claims, id) == Refs(s.db[k].messages[i].attachments)
    {
      assert ThreadFits(s.claims, s.db[k], false);
      assert Fits(s.claims, s.db[k].messages[i], false);
    }
  }

  /** Once a row's claim is exact, no step of anybody makes it inexact, whatever is still missing
      elsewhere. */
  lemma StepKeepsExact(s: System, step: Step, id: MsgId)
    requires Tidy(s.db) && Exact(s, id) && Permitted(s.db, step)
    ensures Exact(Next(s, step), id)
  {
    var righted := System(s.db, Righted(s, id));
    RightedIsGood(s, id);
    StepKeepsBooks(righted, step, false);
    GoodIsExact(Next(righted, step), id);
    SameClaimSameEffect(s.claims, righted.claims, Events(s.db, step), id);
    assert Next(righted, step).db == Next(s, step).db;
  }

  lemma LiveIsStored(db: Db, id: MsgId)
    requires LiveIn(db, id)
    ensures Stored(db, id)
  {
    var k :| k in db && LiveRow(db[k], id);
    assert !Absent(db[k], id);
  }

  lemma FoundClaimMakesExact(s: System, copy: Message)
    requires Good(s, true) && TurnPermitted(s.db, Claim(copy)) && LiveIn(s.db, copy.id)
    ensures Exact(NextTurn(s, Claim(copy)), copy.id)
  {
    ClaimAdds(s.claims, copy, copy.id);
    LiveIsStored(s.db, copy.id);
    forall k, i | k in s.db && 0 <= i < |s.db[k].messages| && s.db[k].messages[i].id == copy.id
      ensures Claimed(NextTurn(s, Claim(copy)).claims, copy.id) == Refs(s.db[k].messages[i].attachments)
    {
      assert ThreadFits(s.claims, s.db[k], true) && Fits(s.claims, s.db[k].messages[i], true);
      LiveRowIsTheCopy(s, copy, k, i);
    }
  }

  lemma ClaimKeepsExact(s: System, copy: Message, id: MsgId)
    requires Good(s, true) && TurnPermitted(s.db, Claim(copy)) && Found(s.db, Claim(copy)) && Exact(s, id)
    ensures Exact(NextTurn(s, Claim(copy)), id)
  {
    ClaimAdds(s.claims, copy, id);
    if id == copy.id && LiveIn(s.db, id) {
      FoundClaimMakesExact(s, copy);
    }
  }

  // ── The pass ─────────────────────────────────────────────────────────────

  lemma TurnsPrefix(s: System, turns: seq<Turn>)
    requires turns != [] && TurnsPermitted(s, turns)
    ensures var n := |turns| - 1;
      TurnsPermitted(s, turns[..n]) && TurnPermitted(PlayTurns(s, turns[..n]).db, turns[n])
  {
    var n := |turns| - 1;
    forall i | 0 <= i < n
      ensures TurnPermitted(PlayTurns(s, turns[..n][..i]).db, turns[..n][i])
    {
      assert turns[..n][..i] == turns[..i];
    }
  }

  lemma FoundPrefix(s: System, turns: seq<Turn>)
    requires turns != [] && AllFound(s, turns)
    ensures var n := |turns| - 1; AllFound(s, turns[..n]) && Found(PlayTurns(s, turns[..n]).db, turns[n])
  {
    var n := |turns| - 1;
    forall i | 0 <= i < n
      ensures Found(PlayTurns(s, turns[..n][..i]).db, turns[..n][i])
    {
      assert turns[..n][..i] == turns[..i];
    }
  }

  lemma {:induction false} FoundPassKeepsBooks(s: System, turns: seq<Turn>)
    requires Good(s, true) && TurnsPermitted(s, turns) && AllFound(s, turns)
    ensures Good(PlayTurns(s, turns), true)
  {
    if turns != [] {
      var n := |turns| - 1;
      TurnsPrefix(s, turns);
      FoundPrefix(s, turns);
      FoundPassKeepsBooks(s, turns[..n]);
      match turns[n] {
        case Claim(copy) => FoundClaimKeepsBooks(PlayTurns(s, turns[..n]), copy);
        case Elsewhere(step) => StepKeepsBooks(PlayTurns(s, turns[..n]), step, true);
      }
    }
  }

  /** Nothing is ever claimed that its row does not carry. */
  ghost predicate NeverOver(s: System, turns: seq<Turn>) {
    forall i | 0 <= i <= |turns| :: Good(PlayTurns(s, turns[..i]), true)
  }

  lemma PrefixIsFound(s: System, turns: seq<Turn>, i: nat)
    requires TurnsPermitted(s, turns) && AllFound(s, turns) && i <= |turns|
    ensures TurnsPermitted(s, turns[..i]) && AllFound(s, turns[..i])
  {
    forall j | 0 <= j < i
      ensures TurnPermitted(PlayTurns(s, turns[..i][..j]).db, turns[..i][j])
      ensures Found(PlayTurns(s, turns[..i][..j]).db, turns[..i][j])
    {
      assert turns[..i][..j] == turns[..j];
    }
  }

  lemma OneMoreTurn(s: System, turns: seq<Turn>, i: nat)
    requires i < |turns|
    ensures PlayTurns(s, turns[..i + 1]) == NextTurn(PlayTurns(s, turns[..i]), turns[i])
  {
    assert turns[..i + 1][..i] == turns[..i];
  }

  lemma NeverOverIsFound(s: System, turns: seq<Turn>, i: nat)
    requires TurnsPermitted(s, turns) && NeverOver(s, turns) && i < |turns|
    ensures Found(PlayTurns(s, turns[..i]).db, turns[i])
  {
    OneMoreTurn(s, turns, i);
    if turns[i].Claim? {
      assert TurnPermitted(PlayTurns(s, turns[..i]).db, turns[i]);
      GoodClaimIsFound(PlayTurns(s, turns[..i]), turns[i].copy);
    }
  }

  /** However the claims of a pass fall between everybody else's writes: no claim ever says more than
      its row carries exactly when every claim finds its row where it was read. */
  lemma NeverOverIffFound(s: System, turns: seq<Turn>)
    requires Good(s, true) && TurnsPermitted(s, turns)
    ensures NeverOver(s, turns) <==> AllFound(s, turns)
  {
    if AllFound(s, turns) {
      forall i | 0 <= i <= |turns|
        ensures Good(PlayTurns(s, turns[..i]), true)
      {
        PrefixIsFound(s, turns, i);
        FoundPassKeepsBooks(s, turns[..i]);
      }
    } else if NeverOver(s, turns) {
      forall i | 0 <= i < |turns|
        ensures Found(PlayTurns(s, turns[..i]).db, turns[i])
      {
        NeverOverIsFound(s, turns, i);
      }
    }
  }

  predicate Takes(turn: Turn, id: MsgId) {
    turn.Claim? && turn.copy.id == id
  }

  predicate TakenBy(turns: seq<Turn>, id: MsgId) {
    exists i :: 0 <= i < |turns| && Takes(turns[i], id)
  }

  /** What is dead or gone carries nothing, and is claimed for nothing. */
  lemma DeadIsExact(s: System, id: MsgId)
    requires Good(s, true) && !LiveIn(s.db, id)
    ensures Exact(s, id)
  {
    forall k, i | k in s.db && 0 <= i < |s.db[k].messages| && s.db[k].messages[i].id == id
      ensures Claimed(s.claims, id) == Refs(s.db[k].messages[i].attachments)
    {
      var c := s.db[k];
      assert ThreadFits(s.claims, c, true) && Inv(c);
      assert Fits(s.claims, c.messages[i], true) && Sound(c.messages[i]);
      assert c.messages[i].Live() ==> LiveRow(c, id);
    }
  }

  lemma TurnKeepsExact(s: System, turn: Turn, id: MsgId)
    requires Good(s, true) && TurnPermitted(s.db, turn) && Found(s.db, turn)
    requires Exact(s, id) || Takes(turn, id)
    ensures Exact(NextTurn(s, turn), id)
  {
    match turn {
      case Elsewhere(step) => StepKeepsExact(s, step, id);
      case Claim(copy) =>
        if !LiveIn(s.db, copy.id) {
          DeadIsExact(s, copy.id);
        }
        if Exact(s, id) {
          ClaimKeepsExact(s, copy, id);
        } else {
          FoundClaimMakesExact(s, copy);
        }
    }
  }

  lemma LastTakes(turns: seq<Turn>, id: MsgId)
    requires turns != [] && TakenBy(turns, id)
    ensures TakenBy(turns[..|turns| - 1], id) || Takes(turns[|turns| - 1], id)
  {
    var i :| 0 <= i < |turns| && Takes(turns[i], id);
    if i < |turns| - 1 {
      assert Takes(turns[..|turns| - 1][i], id);
    }
  }

  lemma {:induction false} PassMakesExact(s: System, turns: seq<Turn>, id: MsgId)
    requires Good(s, true) && TurnsPermitted(s, turns) && AllFound(s, turns)
    requires Exact(s, id) || TakenBy(turns, id)
    ensures Exact(PlayTurns(s, turns), id)
  {
    if turns != [] {
      var n := |turns| - 1;
      TurnsPrefix(s, turns);
      FoundPrefix(s, turns);
      FoundPassKeepsBooks(s, turns[..n]);
      if Exact(s, id) || TakenBy(turns[..n], id) {
        PassMakesExact(s, turns[..n], id);
      } else {
        LastTakes(turns, id);
      }
      TurnKeepsExact(PlayTurns(s, turns[..n]), turns[n], id);
    }
  }

  /** The pass got to every row that was live when it began and still is. */
  ghost predicate Covers(s: System, turns: seq<Turn>) {
    forall id :: LiveIn(s.db, id) && LiveIn(PlayTurns(s, turns).db, id) ==> TakenBy(turns, id)
  }

  lemma EndsExact(s: System, turns: seq<Turn>, id: MsgId)
    requires Good(s, true) && TurnsPermitted(s, turns) && AllFound(s, turns) && Covers(s, turns)
    requires Good(PlayTurns(s, turns), true)
    ensures Exact(PlayTurns(s, turns), id)
  {
    if !LiveIn(PlayTurns(s, turns).db, id) {
      DeadIsExact(PlayTurns(s, turns), id);
    } else {
      if !LiveIn(s.db, id) {
        DeadIsExact(s, id);
      }
      PassMakesExact(s, turns, id);
    }
  }

  lemma AllExactIsGood(s: System)
    requires Tidy(s.db) && forall id :: Exact(s, id)
    ensures Good(s, false)
  {
    forall k | k in s.db
      ensures ThreadFits(s.claims, s.db[k], false)
    {
      forall i | 0 <= i < |s.db[k].messages|
        ensures Fits(s.claims, s.db[k].messages[i], false)
      {
        assert Exact(s, s.db[k].messages[i].id);
      }
    }
    forall id
      ensures Stored(s.db, id) || Claimed(s.claims, id) == {}
    {
      assert Exact(s, id);
    }
  }

  /** A backfill row by row, beside everybody else's posting, deleting, erasing, folding and dropping. If
      every claim finds its row where it was read and no row is passed over, it ends with exact books:
      a reference is claimed exactly while a live message carries it. */
  lemma RowByRowPassClosesTheBooks(s: System, turns: seq<Turn>, ref: string)
    requires Good(s, true) && TurnsPermitted(s, turns) && AllFound(s, turns) && Covers(s, turns)
    ensures var s' := PlayTurns(s, turns);
      && Good(s', false)
      && (RefClaimed(s'.claims, ref) <==> exists k :: k in s'.db && Carries(s'.db[k], ref))
  {
    var s' := PlayTurns(s, turns);
    FoundPassKeepsBooks(s, turns);
    forall id
      ensures Exact(s', id)
    {
      EndsExact(s, turns, id);
    }
    AllExactIsGood(s');
    RefClaimedIffCarried(s', ref);
  }

  // ── A claim that comes too late ──────────────────────────────────────────

  /** The pass reads a message, its author deletes it, and then the claim goes out: it stays with nobody
      carrying what it names. */
  lemma ClaimAfterDeletionLingers(
    s: System, k: ConvId, c: Conversation, m: Message, actor: UserId, at: Time, ref: string)
    requires s.db == map[k := c] && c.messages == [m] && Good(s, true)
    requires m.Live() && m.sender == Some(actor) && ref in Refs(m.attachments)
    ensures var turns := [Elsewhere(OnThread(k, Deleting(m, actor, at))), Claim(m)];
      var s' := PlayTurns(s, turns);
      && TurnsPermitted(s, turns) && !AllFound(s, turns)
      && RefClaimed(s'.claims, ref) && forall j | j in s'.db :: !Carries(s'.db[j], ref)
  {
    var one, two := Elsewhere(OnThread(k, Deleting(m, actor, at))), Claim(m);
    DeletionIsATurn(s, k, c, m, actor, at);
    var s1 := NextTurn(s, one);
    TwoTurns(s, one, two);
    ClaimAdds(s1.claims, m, m.id);
    assert !Found(PlayTurns(s, [one, two][..1]).db, [one, two][1]);
    assert ref in Claimed(PlayTurns(s, [one, two]).claims, m.id);
  }

  lemma DeletionIsATurn(s: System, k: ConvId, c: Conversation, m: Message, actor: UserId, at: Time)
    requires s.db == map[k := c] && c.messages == [m] && Good(s, true) && m.Live() && m.sender == Some(actor)
    ensures var one := Elsewhere(OnThread(k, Deleting(m, actor, at)));
      var s1 := NextTurn(s, one);
      && TurnPermitted(s.db, one) && TurnPermitted(s1.db, Claim(m)) && !LiveIn(s1.db, m.id)
      && forall j, ref | j in s1.db :: !Carries(s1.db[j], ref)
  {
    assert s.db[k] == c;
    DeletedAlone(c, m, actor, at);
    var op := Deleting(m, actor, at);
    var s1 := Next(s, OnThread(k, op));
    assert s1.db[k] == DeleteLocked(c, m.id, at) && forall j | j in s1.db :: j == k;
    assert Permitted(s.db, OnThread(k, op));
  }

  lemma DeletedAlone(c: Conversation, m: Message, actor: UserId, at: Time)
    requires Inv(c) && c.messages == [m] && m.Live() && m.sender == Some(actor)
    ensures var c' := DeleteLocked(c, m.id, at);
      && Apply(c, Deleting(m, actor, at)) == c' && !LiveRow(c', m.id)
      && (forall ref :: !Carries(c', ref))
      && Admissible(c, Deleting(m, actor, at)) && PastCopy(c, m) && PastCopy(c', m)
  {
    assert m in c.messages && Sound(c.messages[0]);
    assert IndexOf(c.messages, m.id) == 0;
    assert DeleteLocked(c, m.id, at).messages == [DeletedRow(m, at, c.lastSeq + 1)];
  }

  lemma TwoTurns(s: System, one: Turn, two: Turn)
    ensures PlayTurns(s, [one, two][..0]) == s
    ensures PlayTurns(s, [one, two][..1]) == NextTurn(s, one)
    ensures PlayTurns(s, [one, two]) == NextTurn(NextTurn(s, one), two)
    ensures TurnPermitted(s.db, one) && TurnPermitted(NextTurn(s, one).db, two) ==> TurnsPermitted(s, [one, two])
  {
    var turns := [one, two];
    assert turns[..1] == [one] && turns[..0] == [] && turns[..1][..0] == [];
  }
}
