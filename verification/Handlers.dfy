/** The account handlers as they run: loops over rows that are reassigned and deleted one by one. */
module Handlers {
  import opened Text
  import opened Rows
  import opened Journal
  import opened DirectKey
  import opened Store
  import opened Merge
  import opened Gdpr
  import opened CdnLedger
  import opened CdnHandlers
  import Columns

  lemma TakenKeyIsMembership(rows: seq<Message>, taken: set<string>, key: string)
    requires taken == set i | 0 <= i < |rows| && rows[i].clientId != "" :: rows[i].clientId
    ensures key != "" && key in taken <==> TakenKey(rows, key)
  {
    if key != "" && key in taken {
      var i :| 0 <= i < |rows| && rows[i].clientId == key;
      assert IndexOfKey(rows, key) <= i;
    }
  }

  /** The winner once `i` rows have moved in. */
  function WithAdopted(w: Conversation, l: Conversation, i: nat): Conversation
    requires i <= |l.messages|
  {
    w.(messages := w.messages + AdoptRows(l.messages, w.messages, w.lastSeq)[..i])
  }

  lemma OneMoreAdopted(w: Conversation, l: Conversation, i: nat)
    requires i < |l.messages|
    ensures var now := WithAdopted(w, l, i);
      WithAdopted(w, l, i + 1) ==
        now.(messages := now.messages + [Adopted(l.messages[i], w.messages, w.lastSeq + i + 1)])
    ensures l.messages[i..] != [] && l.messages[i..][1..] == l.messages[i + 1..]
  {
    var all := AdoptRows(l.messages, w.messages, w.lastSeq);
    assert all[..i + 1] == all[..i] + [all[i]];
    assert w.messages + all[..i + 1] == w.messages + all[..i] + [all[i]];
  }

  lemma AllAdopted(w: Conversation, l: Conversation)
    ensures WithAdopted(w, l, 0) == w
    ensures WithAdopted(w, l, |l.messages|).(lastSeq := w.lastSeq + |l.messages|) == Adopt(w, l).(members := w.members)
  {
    var all := AdoptRows(l.messages, w.messages, w.lastSeq);
    assert all[..|l.messages|] == all;
  }

  /** Only these two threads differ. */
  ghost predicate SameElsewhere(before: Db, after: Db, j: ConvId, k: ConvId) {
    after.Keys == before.Keys && forall i | i in before && i != j && i != k :: after[i] == before[i]
  }

  /** The first `i` rows of the loser sit in the winner. */
  ghost predicate MovedUpTo(before: Db, loser: ConvId, winner: ConvId, i: nat, now: Db) {
    && loser in before && winner in before && i <= |before[loser].messages|
    && SameElsewhere(before, now, loser, winner)
    && now[winner] == WithAdopted(before[winner], before[loser], i)
    && now[loser] == before[loser].(messages := before[loser].messages[i..])
  }

  lemma NothingMoved(before: Db, loser: ConvId, winner: ConvId)
    requires loser in before && winner in before
    ensures MovedUpTo(before, loser, winner, 0, before)
  {
    AllAdopted(before[winner], before[loser]);
  }

  lemma MovingLeavesRows(before: Db, loser: ConvId, winner: ConvId, i: nat, now: Db)
    requires MovedUpTo(before, loser, winner, i, now) && i < |before[loser].messages|
    ensures loser in now && winner in now && now[loser].messages != []
  {
  }

  lemma OneMoreMoved(before: Db, loser: ConvId, winner: ConvId, i: nat, now: Db, next: Db, msg: Message)
    requires MovedUpTo(before, loser, winner, i, now) && loser != winner && i < |before[loser].messages|
    requires loser in now && winner in now && now[loser].messages != [] && SameElsewhere(now, next, loser, winner)
    requires next[winner] == now[winner].(messages := now[winner].messages + [msg])
    requires next[loser] == now[loser].(messages := now[loser].messages[1..])
    requires msg == Adopted(before[loser].messages[i], before[winner].messages, before[winner].lastSeq + i + 1)
    ensures MovedUpTo(before, loser, winner, i + 1, next)
  {
    OneMoreAdopted(before[winner], before[loser], i);
  }

  lemma AllMoved(before: Db, loser: ConvId, winner: ConvId, now: Db)
    requires loser in before && MovedUpTo(before, loser, winner, |before[loser].messages|, now)
    ensures SameElsewhere(before, now, loser, winner) && now[loser] == before[loser].(messages := [])
    ensures var w, l := before[winner], before[loser];
      && now[winner].(lastSeq := w.lastSeq + |l.messages|) == Adopt(w, l).(members := w.members)
      && now[winner].lastSeq == w.lastSeq
  {
    AllAdopted(before[winner], before[loser]);
    assert before[loser].messages[|before[loser].messages|..] == [];
  }

  function WithMembersMerged(c: Conversation, from: UserId, into: UserId): Conversation {
    c.(members := RenameMembers(c.members, from, into))
  }

  class ChatTables {
    var threads: Db
    var accounts: set<UserId>
    var published: seq<Sync>

    constructor (accounts: set<UserId>)
      ensures threads == map[] && this.accounts == accounts && published == []
    {
      threads, this.accounts, published := map[], accounts, [];
    }

    /** The claims of rows that are going: read before the delete, published after it. */
    method Release(rows: seq<Message>)
      modifies this`published
      ensures published == old(published) + EmitAll(rows, Removal)
    {
      for i := 0 to |rows|
        invariant published == old(published) + EmitAll(rows[..i], Removal)
      {
        OneMoreEmitted(rows, Removal, i);
        var refs := Refs(rows[i].attachments);
        if refs != {} {
          published := published + [Sync(rows[i].id, refs, {})];
        }
      }
      assert rows[..|rows|] == rows;
    }

    /** A conversation row goes, and its rows with it. */
    method DropConversation(k: ConvId)
      requires k in threads
      modifies this`threads, this`published
      ensures threads == old(threads) - {k}
      ensures published == old(published) + EmitAll(old(threads)[k].messages, Removal)
    {
      var rows := threads[k].messages;
      threads := threads - {k};
      Release(rows);
    }

    /** A folded message is new to every client of the thread it lands in; its idempotency key was
        scoped to the thread it was sent in. */
    static method Renumbered(row: Message, taken: set<string>, number: nat) returns (msg: Message)
      ensures msg == row.(number := number, revision := number,
        clientId := if row.clientId != "" && row.clientId in taken then "" else row.clientId)
    {
      msg := row.(number := number, revision := number);
      if msg.clientId != "" && msg.clientId in taken {
        msg := msg.(clientId := "");
      }
    }

    /** One row changes threads: out at the front of one, in at the end of the other. */
    method MoveRow(loser: ConvId, winner: ConvId, msg: Message)
      requires loser in threads && winner in threads && loser != winner && threads[loser].messages != []
      modifies this`threads
      ensures SameElsewhere(old(threads), threads, loser, winner)
      ensures threads[winner] == old(threads)[winner].(messages := old(threads)[winner].messages + [msg])
      ensures threads[loser] == old(threads)[loser].(messages := old(threads)[loser].messages[1..])
    {
      threads := threads[winner := threads[winner].(messages := threads[winner].messages + [msg])];
      threads := threads[loser := threads[loser].(messages := threads[loser].messages[1..])];
    }

    /** The loser's rows move one by one onto the winner's next numbers. */
    method MoveMessages(loser: ConvId, winner: ConvId)
      requires loser in threads && winner in threads && loser != winner
      modifies this`threads
      ensures SameElsewhere(old(threads), threads, loser, winner)
      ensures var w, l := old(threads)[winner], old(threads)[loser];
        && threads[winner] == Adopt(w, l).(members := w.members)
        && threads[loser] == l.(messages := [])
    {
      ghost var before := threads;
      var taken := set i | 0 <= i < |threads[winner].messages| && threads[winner].messages[i].clientId != "" ::
        threads[winner].messages[i].clientId;
      var queue, number := threads[loser].messages, threads[winner].lastSeq;
      var i := 0;
      NothingMoved(before, loser, winner);
      while i < |queue|
        invariant i <= |queue| && number == before[winner].lastSeq + i
        invariant MovedUpTo(before, loser, winner, i, threads)
        decreases |queue| - i
      {
        number := number + 1;
        var msg := Renumbered(queue[i], taken, number);
        TakenKeyIsMembership(before[winner].messages, taken, queue[i].clientId);
        ghost var now := threads;
        MovingLeavesRows(before, loser, winner, i, now);
        MoveRow(loser, winner, msg);
        OneMoreMoved(before, loser, winner, i, now, threads, msg);
        i := i + 1;
      }
      AllMoved(before, loser, winner, threads);
      if number != threads[winner].lastSeq {
        threads := threads[winner := threads[winner].(lastSeq := number)];
      }
    }

    /** The loser's members join the winner unless they already sit there. */
    method SeatMembers(loser: ConvId, winner: ConvId)
      requires loser in threads && winner in threads && loser != winner
      modifies this`threads
      ensures threads == old(threads)[winner :=
        old(threads)[winner].(members := old(threads)[loser].members + old(threads)[winner].members)]
    {
      ghost var w, l := threads[winner], threads[loser];
      var seated, joining := threads[winner].members, threads[loser].members.Keys;
      while joining != {}
        invariant joining <= l.members.Keys
        invariant threads == old(threads)[winner := w.(members := seated)]
        invariant seated.Keys == w.members.Keys + (l.members.Keys - joining)
        invariant forall u | u in seated :: seated[u] == if u in w.members then w.members[u] else l.members[u]
        decreases joining
      {
        var u :| u in joining;
        if u !in seated {
          seated := seated[u := threads[loser].members[u]];
          threads := threads[winner := threads[winner].(members := seated)];
        }
        joining := joining - {u};
      }
      assert seated == l.members + w.members;
    }

    method FoldConversation(loser: ConvId, winner: ConvId)
      requires loser in threads && winner in threads && loser != winner
      modifies this`threads
      ensures threads == (old(threads) - {loser})[winner := Adopt(old(threads)[winner], old(threads)[loser])]
    {
      MoveMessages(loser, winner);
      SeatMembers(loser, winner);
      threads := threads - {loser};
    }

    /** The user ids of a thread, sorted: the first two are its people. */
    method People(k: ConvId) returns (a: UserId, b: UserId)
      requires k in threads && |threads[k].members| >= 2
      ensures Key(threads[k].scope, a, b, threads[k].subjectType, threads[k].subjectKey) == KeyOf(threads[k])
    {
      var users := threads[k].members.Keys;
      assert |users| >= 2;
      LeastExists(users);
      a :| LeastIn(a, users);
      var rest := users - {a};
      assert rest == {} ==> users == {a};
      LeastExists(rest);
      b :| LeastIn(b, rest);
      LeastIsOne(users, a);
      LeastIsOne(rest, b);
    }

    /** Recompute the key of a direct thread after its people changed; a collision folds it into the
        thread that already carries the key. */
    method RequalifyDirectKey(k: ConvId)
      requires k in threads && OneThreadPerKey(threads) && threads[k].kind.Direct?
      modifies this`threads, this`published
      ensures threads == Requalify(old(threads), k) && OneThreadPerKey(threads)
      ensures published == old(published) + Events(old(threads), Requalifying(k))
    {
      RequalifyKeepsKeysApart(threads, k);
      if |threads[k].members| < 2 {
        DropConversation(k);
        return;
      }
      var a, b := People(k);
      var key := Key(threads[k].scope, a, b, threads[k].subjectType, threads[k].subjectKey);
      if key == threads[k].directKey {
        return;
      }
      var rivals := Rivals(threads, k, key);
      if rivals == {} {
        threads := threads[k := threads[k].(directKey := key)];
      } else {
        var winner :| winner in rivals;
        OneRival(threads, k, key, winner, Pick(rivals));
        FoldConversation(k, winner);
      }
    }

    /** One membership of the guest. */
    method MergeParticipation(k: ConvId, from: UserId, into: UserId)
      requires k in threads && from in threads[k].members && from != into
      modifies this`threads
      ensures threads == old(threads)[k := WithMembersMerged(old(threads)[k], from, into)]
      ensures Columns.SeatsMoved(old(threads)[k].members, threads[k].members, from, into)
    {
      var members := threads[k].members;
      var guest := members[from];
      if into !in members {
        members := (members - {from})[into := guest];
      } else {
        var survivor := members[into];
        var read, delivered := Max(survivor.lastRead, guest.lastRead), Max(survivor.lastDelivered, guest.lastDelivered);
        if (read, delivered) != (survivor.lastRead, survivor.lastDelivered) {
          members := members[into := survivor.(lastRead := read, lastDelivered := delivered)];
        }
        members := members - {from};
      }
      assert members == RenameMembers(threads[k].members, from, into);
      threads := threads[k := threads[k].(members := members)];
      Columns.MergeMovesTheSeat(old(threads)[k], from, into);
    }

    /** Memberships move; where both sat, only the two markers are folded. */
    method MergeParticipations(from: UserId, into: UserId)
      requires from != into
      modifies this`threads
      ensures threads == map k | k in old(threads) :: WithMembersMerged(old(threads)[k], from, into)
      ensures forall k | k in old(threads) ::
        k in threads && Columns.SeatsMoved(old(threads)[k].members, threads[k].members, from, into)
    {
      var rows := set k | k in threads && from in threads[k].members;
      ghost var before := threads;
      while rows != {}
        invariant threads.Keys == before.Keys && rows <= before.Keys
        invariant forall k | k in rows :: from in before[k].members
        invariant forall k | k in rows :: threads[k] == before[k]
        invariant forall k | k in before && k !in rows :: threads[k] == WithMembersMerged(before[k], from, into)
        decreases rows
      {
        var k :| k in rows;
        MergeParticipation(k, from, into);
        rows := rows - {k};
      }
      forall k | k in before
        ensures k in threads && Columns.SeatsMoved(before[k].members, threads[k].members, from, into)
      {
        Columns.MergeMovesTheSeat(before[k], from, into);
      }
    }

    /** The messages and assignments move in one statement each, the memberships one by one. */
    method MoveRows(from: UserId, into: UserId)
      requires from != into
      modifies this`threads
      ensures threads == Moved(old(threads), from, into)
    {
      threads := map k | k in threads :: threads[k].(messages := RenameRows(threads[k].messages, from, into));
      threads := map k | k in threads :: threads[k].(operator := Renamed(threads[k].operator, from, into));
      MergeParticipations(from, into);
    }

    /** The transaction, once the guest is known to own something and the survivor to exist. */
    method CarryOver(from: UserId, into: UserId) returns (ghost order: seq<ConvId>)
      requires from != into && OneThreadPerKey(threads)
      requires Disentangled(Moved(threads, from, into), Stale(threads, from))
      modifies this`threads, this`published
      ensures Lists(order, Stale(old(threads), from))
      ensures threads == RequalifyAll(Moved(old(threads), from, into), order)
      ensures published == old(published) + Log(old(threads), MergeSteps(from, into, order))
    {
      ghost var before := threads;
      var touched := set k | k in threads && from in threads[k].members;
      MoveRows(from, into);
      var stale := set k | k in threads && k in touched && threads[k].kind.Direct?;
      assert stale == Stale(before, from);
      MovedKeysStayApart(before, from, into);
      ghost var start := published;
      order := RequalifyStale(stale, before, from, into);
      MergedIsSettled(before, from, into, order, start, threads, published);
    }

    /** The event handler. `readable`: both ids can address a row. A raise asks for redelivery and
        leaves everything as it was. */
    method HandleUserMerged(from: UserId, into: UserId, readable: bool) returns (raised: bool, ghost order: seq<ConvId>)
      requires GlobalInv(threads) && Clean(into)
      modifies this`threads, this`published
      ensures UserMerged(old(threads), accounts, readable, from, into, order) ==
        if raised then MergeTargetNotReady else Returned(threads)
      ensures if Carries(old(threads), accounts, readable, from, into) then
          Lists(order, Stale(old(threads), from)) &&
          published == old(published) + Log(old(threads), MergeSteps(from, into, order))
        else threads == old(threads) && published == old(published)
    {
      raised, order := false, [];
      if from == "" || into == "" || from == into || !readable {
        return;
      }
      if !OwnsSomething(threads, from) {
        return;
      }
      if into !in accounts {
        return true, [];
      }
      MergeDisentangles(threads, from, into);
      order := CarryOver(from, into);
    }

    /** The stale threads, one by one, in no particular order. */
    method RequalifyStale(stale: set<ConvId>, ghost before: Db, ghost from: UserId, ghost into: UserId)
      returns (ghost order: seq<ConvId>)
      requires threads == Moved(before, from, into) && Disentangled(threads, stale) && OneThreadPerKey(threads)
      requires forall k | k in stale :: k in threads && threads[k].kind.Direct?
      modifies this`threads, this`published
      ensures Lists(order, stale) && MergedSoFar(before, from, into, order, old(published), threads, published)
    {
      ghost var moved := threads;
      order := [];
      var rest := stale;
      MovingIsSilent(before, from, into, published);
      while rest != {}
        invariant rest + Elements(order) == stale && rest !! Elements(order) && NoRepeats(order)
        invariant MergedSoFar(before, from, into, order, old(published), threads, published)
        invariant OneThreadPerKey(threads)
        decreases rest
      {
        var k :| k in rest;
        StaleIsStillThere(moved, stale, before, from, into, order, old(published), threads, published, k);
        ghost var now, log := threads, published;
        RequalifyDirectKey(k);
        MergeOneMore(before, from, into, order, old(published), now, log, k);
        OneMoreElement(order, k);
        order := order + [k];
        rest := rest - {k};
      }
    }

    // ── user.deleted ───────────────────────────────────────────────────────

    /** What a row's own release says, if it carried anything. */
    static function Freed(m: Message): seq<Sync> {
      var refs := Refs(m.attachments);
      if refs == {} then [] else [Sync(m.id, refs, {})]
    }

    /** One row of the pass: a live row of the user becomes an anonymous tombstone on the next number of
        the block, and lets go of what it carried. */
    static method EraseRow(m: Message, user: UserId, at: Time, base: nat, offset: nat)
      returns (row: Message, released: seq<Sync>, taken: nat)
      ensures released == Emit(m, ErasureOf(user)) && taken == offset + if Mine(m, user) then 1 else 0
      ensures row == if Mine(m, user) then Erased(m, at, base + taken) else m
    {
      row, released, taken := m, [], offset;
      if Mine(m, user) {
        taken := taken + 1;
        released := Freed(m);
        row := row.(body := "", attachments := [], sender := None, deletedAt := Some(at), revision := base + taken);
      }
    }

    /** One locked pass over a thread's rows, on a block of numbers reserved up front. */
    static method EraseLiveRows(rows: seq<Message>, user: UserId, at: Time, base: nat)
      returns (done: seq<Message>, released: seq<Sync>)
      ensures done == EraseRows(rows, user, at, base) && released == EmitAll(rows, ErasureOf(user))
    {
      done, released := [], [];
      var offset, i := 0, 0;
      NothingErasedUpTo(rows, user, at, base);
      while i < |rows|
        invariant 0 <= i <= |rows| && ErasedUpTo(rows, user, at, base, i, done, released, offset)
      {
        var row, freed, taken := EraseRow(rows[i], user, at, base, offset);
        OneMoreErased(rows, user, at, base, i, done, released, offset, row, freed, taken);
        done, released, offset, i := done + [row], released + freed, taken, i + 1;
      }
      AllErased(rows, user, at, base, done, released, offset);
    }

    method EraseInThread(k: ConvId, user: UserId, at: Time)
      requires k in threads
      modifies this`threads, this`published
      ensures threads == old(threads)[k := EraseUser(old(threads)[k], user, at)]
      ensures published == old(published) + Events(old(threads), OnThread(k, Erasing(user, at)))
    {
      ghost var before := threads;
      var c := threads[k];
      EraseEvents(before, k, user, at);
      threads := threads[k := c.(lastSeq := c.lastSeq + CountMine(c.messages, user))];
      var done, released := EraseLiveRows(c.messages, user, at, c.lastSeq);
      threads := threads[k := threads[k].(messages := done)];
      assert threads[k] == EraseUser(c, user, at);
      published := published + released;
    }

    method EraseUserMessages(user: UserId, at: Time) returns (ghost own: seq<ConvId>)
      modifies this`threads, this`published
      ensures ListsOwn(own, old(threads), user) && threads == EraseEverywhere(old(threads), user, at)
      ensures published == old(published) + Log(old(threads), EraseSteps(user, at, own))
    {
      ghost var before := threads;
      own := [];
      var rest := set k | k in threads && CountMine(threads[k].messages, user) > 0;
      ghost var all := rest;
      NothingErasedYet(before, user, at, published);
      while rest != {}
        invariant rest + Elements(own) == all && rest !! Elements(own) && NoRepeats(own)
        invariant all <= before.Keys && ErasedSoFar(before, user, at, own, old(published), threads, published)
        decreases rest
      {
        var k :| k in rest;
        ghost var now, log := threads, published;
        StillUnerased(before, user, at, own, old(published), now, log, k);
        EraseInThread(k, user, at);
        EraseOneMoreThread(before, user, at, own, old(published), now, log, k);
        OneMoreElement(own, k);
        own := own + [k];
        rest := rest - {k};
      }
      OwnThreadsAreEnough(before, user, at, own);
    }

    /** The direct threads the user sat in that are down to fewer than two people. */
    method DropDeadThreads(candidates: set<ConvId>) returns (ghost dead: seq<ConvId>)
      modifies this`threads, this`published
      ensures Lists(dead, Lonely(old(threads), candidates))
      ensures threads == old(threads) - Elements(dead)
      ensures published == old(published) + DropLog(old(threads), dead)
    {
      ghost var whole, all, log := threads, Lonely(threads, candidates), [];
      dead := [];
      var rest := set k | k in candidates && k in threads && threads[k].kind.Direct?;
      while rest != {}
        invariant rest <= whole.Keys && Elements(dead) == all - rest && NoRepeats(dead)
        invariant forall k | k in rest :: k in all <==> |whole[k].members| < 2
        invariant threads == whole - Elements(dead)
        invariant log == DropLog(whole, dead) && published == old(published) + log
        decreases rest
      {
        var k :| k in rest;
        if |threads[k].members| < 2 {
          DropOneMoreThread(whole, dead, k);
          LogConcatTwice(old(published), log, EmitAll(whole[k].messages, Removal));
          DropConversation(k);
          dead, log := dead + [k], log + EmitAll(whole[k].messages, Removal);
        }
        rest := rest - {k};
      }
    }

    /** Erase first, while the memberships still say which threads to look at; then the memberships;
        then the threads that are left without a point, with everything their rows claimed. */
    method HandleUserDeleted(user: UserId, readable: bool, at: Time)
      returns (ghost own: seq<ConvId>, ghost dead: seq<ConvId>)
      modifies this`threads, this`published
      ensures if user == "" || !readable then threads == old(threads) && published == old(published)
        else
          && threads == DeleteUser(old(threads), user, at)
          && ListsOwn(own, old(threads), user)
          && Lists(dead, DeadThreads(old(threads), Unseated(old(threads), user, at), user))
          && published == old(published) + Log(old(threads), DeletionSteps(user, at, own, dead))
    {
      own, dead := [], [];
      if user == "" || !readable {
        return;
      }
      ghost var before, start := threads, published;
      var touched := set k | k in threads && user in threads[k].members;
      own := EraseUserMessages(user, at);
      threads := map k | k in threads :: Unseat(threads[k], user);
      assert threads == Unseated(before, user, at);
      assert Lonely(threads, touched) == DeadThreads(before, threads, user);
      dead := DropDeadThreads(touched);
      DeletionLog(before, user, at, own, dead);
      LogConcatTwice(start, Log(before, EraseSteps(user, at, own)), DropLog(Unseated(before, user, at), dead));
    }
  }

  lemma OneMoreEmitted(rows: seq<Message>, why: Occasion, i: nat)
    requires i < |rows|
    ensures EmitAll(rows[..i + 1], why) == EmitAll(rows[..i], why) + Emit(rows[i], why)
  {
    assert rows[..i + 1][..i] == rows[..i];
  }

  lemma EraseEvents(db: Db, k: ConvId, user: UserId, at: Time)
    requires k in db
    ensures Events(db, OnThread(k, Erasing(user, at))) == EmitAll(db[k].messages, ErasureOf(user))
  {
  }

  lemma OneMoreElement(order: seq<ConvId>, k: ConvId)
    ensures Elements(order + [k]) == Elements(order) + {k}
    ensures k !in Elements(order) && NoRepeats(order) ==> NoRepeats(order + [k])
  {
  }

  // ── Where a loop stands ──────────────────────────────────────────────────

  /** The stale threads in `order` are settled and their events published after `start`. */
  ghost predicate MergedSoFar(before: Db, from: UserId, into: UserId, order: seq<ConvId>,
    start: seq<Sync>, now: Db, log: seq<Sync>)
  {
    && now == PlayDb(before, MergeSteps(from, into, order))
    && log == start + Log(before, MergeSteps(from, into, order))
  }

  lemma MovingIsSilent(db: Db, from: UserId, into: UserId, start: seq<Sync>)
    ensures MergedSoFar(db, from, into, [], start, Moved(db, from, into), start)
  {
    LogOneMore(db, [], Moving(from, into));
    assert [] + [Moving(from, into)] == MergeSteps(from, into, []);
  }

  lemma MergedIsSettled(before: Db, from: UserId, into: UserId, order: seq<ConvId>,
    start: seq<Sync>, now: Db, log: seq<Sync>)
    requires MergedSoFar(before, from, into, order, start, now, log)
    ensures now == RequalifyAll(Moved(before, from, into), order)
  {
    MergeStepsMerge(before, from, into, order);
  }

  lemma MergeOneMore(before: Db, from: UserId, into: UserId, order: seq<ConvId>,
    start: seq<Sync>, now: Db, log: seq<Sync>, k: ConvId)
    requires MergedSoFar(before, from, into, order, start, now, log) && k in now
    ensures MergedSoFar(before, from, into, order + [k], start, Requalify(now, k),
      log + Events(now, Requalifying(k)))
  {
    var steps := MergeSteps(from, into, order);
    assert (order + [k])[..|order|] == order;
    LogOneMore(before, steps, Requalifying(k));
    assert MergeSteps(from, into, order + [k]) == steps + [Requalifying(k)];
    LogConcatTwice(start, Log(before, steps), Events(now, Requalifying(k)));
  }

  /** The threads in `own` are erased. */
  ghost predicate ErasedSoFar(before: Db, user: UserId, at: Time, own: seq<ConvId>,
    start: seq<Sync>, now: Db, log: seq<Sync>)
  {
    && now == ErasedIn(before, Elements(own), user, at)
    && log == start + Log(before, EraseSteps(user, at, own))
  }

  lemma NothingErasedYet(before: Db, user: UserId, at: Time, start: seq<Sync>)
    ensures ErasedSoFar(before, user, at, [], start, before, start)
  {
    assert ErasedIn(before, {}, user, at) == before;
    assert start + [] == start;
  }

  lemma StillUnerased(before: Db, user: UserId, at: Time, own: seq<ConvId>,
    start: seq<Sync>, now: Db, log: seq<Sync>, k: ConvId)
    requires ErasedSoFar(before, user, at, own, start, now, log) && k in before && k !in Elements(own)
    ensures k in now && now[k] == before[k]
  {
  }

  lemma EraseOneMoreThread(before: Db, user: UserId, at: Time, own: seq<ConvId>,
    start: seq<Sync>, now: Db, log: seq<Sync>, k: ConvId)
    requires ErasedSoFar(before, user, at, own, start, now, log)
    requires k in before && k !in Elements(own) && NoRepeats(own) && Elements(own) <= before.Keys
    ensures k in now && ErasedSoFar(before, user, at, own + [k], start, now[k := EraseUser(now[k], user, at)],
      log + Events(now, OnThread(k, Erasing(user, at))))
  {
    var steps, step := EraseSteps(user, at, own), OnThread(k, Erasing(user, at));
    assert (own + [k])[..|own|] == own;
    OneMoreElement(own, k);
    EraseOneMore(before, Elements(own), user, at, k);
    EraseStepsErase(before, user, at, own);
    LogOneMore(before, steps, step);
    assert EraseSteps(user, at, own + [k]) == steps + [step];
    LogConcatTwice(start, Log(before, steps), Events(now, step));
  }

  lemma DropOneMoreThread(whole: Db, dead: seq<ConvId>, k: ConvId)
    requires k in whole && k !in Elements(dead)
    ensures Elements(dead + [k]) == Elements(dead) + {k} && (NoRepeats(dead) ==> NoRepeats(dead + [k]))
    ensures (whole - Elements(dead))[k] == whole[k]
    ensures whole - Elements(dead + [k]) == whole - Elements(dead) - {k}
    ensures DropLog(whole, dead + [k]) == DropLog(whole, dead) + EmitAll(whole[k].messages, Removal)
  {
    assert (dead + [k])[..|dead|] == dead;
    OneMoreElement(dead, k);
  }

  function Lonely(db: Db, candidates: set<ConvId>): set<ConvId> {
    set k | k in candidates && k in db && db[k].kind.Direct? && |db[k].members| < 2
  }

  lemma StaleIsStillThere(moved: Db, stale: set<ConvId>, before: Db, from: UserId, into: UserId, order: seq<ConvId>,
    start: seq<Sync>, now: Db, log: seq<Sync>, k: ConvId)
    requires moved == Moved(before, from, into) && Disentangled(moved, stale)
    requires MergedSoFar(before, from, into, order, start, now, log)
    requires k in stale && k !in Elements(order) && Elements(order) <= stale && NoRepeats(order)
    requires k in moved && moved[k].kind.Direct?
    ensures k in now && now[k].kind.Direct?
  {
    MergedIsSettled(before, from, into, order, start, now, log);
    AnyOrderSettles(moved, stale, order);
    FateStays(moved, stale, Elements(order), now, k);
  }

  lemma LeastIsOne(users: set<UserId>, u: UserId)
    requires LeastIn(u, users)
    ensures u == Least(users)
  {
    OrderTotal(u, Least(users));
  }

  lemma OneRival(db: Db, k: ConvId, key: string, v: ConvId, w: ConvId)
    requires OneThreadPerKey(db) && v in Rivals(db, k, key) && w in Rivals(db, k, key)
    ensures v == w
  {
    assert SameKey(db[v], db[w]);
  }

  lemma RequalifyKeepsKeysApart(db: Db, k: ConvId)
    requires OneThreadPerKey(db) && k in db
    ensures OneThreadPerKey(Requalify(db, k))
  {
    var after := Requalify(db, k);
    forall i, j | i in after && j in after && i != j
      ensures !SameKey(after[i], after[j])
    {
      assert !SameKey(db[i], db[j]);
      if FateOf(db, k).Rekeyed? {
        assert i !in Rivals(db, k, KeyOf(db[k])) && j !in Rivals(db, k, KeyOf(db[k]));
      }
    }
  }

  /** The first `i` rows are done. */
  ghost predicate ErasedUpTo(rows: seq<Message>, user: UserId, at: Time, base: nat, i: int,
    done: seq<Message>, released: seq<Sync>, offset: nat)
  {
    && 0 <= i <= |rows| && offset == CountMine(rows[..i], user)
    && done == EraseRows(rows[..i], user, at, base) && released == EmitAll(rows[..i], ErasureOf(user))
  }

  lemma CountOneMore(rows: seq<Message>, user: UserId, i: nat)
    requires i < |rows|
    ensures CountMine(rows[..i + 1], user) == CountMine(rows[..i], user) + if Mine(rows[i], user) then 1 else 0
  {
    assert rows[..i + 1][..i] == rows[..i];
  }

  lemma EraseOneMoreRow(rows: seq<Message>, user: UserId, at: Time, base: nat, i: nat)
    requires i < |rows|
    ensures EraseRows(rows[..i + 1], user, at, base) == EraseRows(rows[..i], user, at, base)
      + [if Mine(rows[i], user) then Erased(rows[i], at, base + CountMine(rows[..i + 1], user)) else rows[i]]
  {
    assert rows[..i + 1][..i] == rows[..i];
  }

  lemma NothingErasedUpTo(rows: seq<Message>, user: UserId, at: Time, base: nat)
    ensures ErasedUpTo(rows, user, at, base, 0, [], [], 0)
  {
    assert rows[..0] == [];
  }

  lemma AllErased(rows: seq<Message>, user: UserId, at: Time, base: nat,
    done: seq<Message>, released: seq<Sync>, offset: nat)
    requires ErasedUpTo(rows, user, at, base, |rows|, done, released, offset)
    ensures done == EraseRows(rows, user, at, base) && released == EmitAll(rows, ErasureOf(user))
  {
    assert rows[..|rows|] == rows;
  }

  lemma OneMoreErased(rows: seq<Message>, user: UserId, at: Time, base: nat, i: nat, done: seq<Message>,
    released: seq<Sync>, offset: nat, row: Message, freed: seq<Sync>, taken: nat)
    requires ErasedUpTo(rows, user, at, base, i, done, released, offset) && i < |rows|
    requires freed == Emit(rows[i], ErasureOf(user)) && taken == offset + if Mine(rows[i], user) then 1 else 0
    requires row == if Mine(rows[i], user) then Erased(rows[i], at, base + taken) else rows[i]
    ensures ErasedUpTo(rows, user, at, base, i + 1, done + [row], released + freed, taken)
  {
    CountOneMore(rows, user, i);
    assert taken == CountMine(rows[..i + 1], user);
    assert done + [row] == EraseRows(rows[..i + 1], user, at, base) by {
      EraseOneMoreRow(rows, user, at, base, i);
    }
    assert released + freed == EmitAll(rows[..i + 1], ErasureOf(user)) by {
      OneMoreEmitted(rows, ErasureOf(user), i);
    }
  }
}
