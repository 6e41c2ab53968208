/** Reachable stores in which a property people expect does not hold. Each is a short run from the empty
    store; the exact condition it misses is proved where the property is. */
module Witnesses {
  import opened Text
  import opened Rows
  import opened Journal
  import opened Store
  import opened Merge
  import MergeKeeps
  import opened DirectKey
  import opened Readers
  import opened Tombstones
  import Allocation
  import Cleared
  import CreateRace
  import Gdpr
  import Runs
  import SendRace
  import Services

  // ── A group of three ─────────────────────────────────────────────────────

  const NEWCOMER := Participant(Member, 0, 0, None, None)

  const ROOM := Conversation(Group, "", "", "", "", None, 0, [],
    map["u" := NEWCOMER, "v" := NEWCOMER, "w" := NEWCOMER])

  lemma RoomIsReached()
    ensures Runs.Reached(map[0 := ROOM])
  {
    Runs.EmptyIsReached();
    Runs.StepIsReached(map[], Runs.OpeningRoom(0, ROOM));
    var db: Db := map[];
    assert db[0 := ROOM] == map[0 := ROOM];
  }

  /** One more write in the only thread there is. */
  lemma WriteIsReached(c: Conversation, op: Op)
    requires Runs.Reached(map[0 := c]) && Admissible(c, op) && !op.Adopting? && !op.Renaming?
    requires op.Posting? ==> Absent(c, op.draft.id)
    requires op.Leaving? ==> Absent(c, op.line)
    ensures Runs.Reached(map[0 := Apply(c, op)])
  {
    var db: Db := map[0 := c];
    Runs.WriteIsReached(db, 0, op, Apply(c, op));
    assert db[0 := Apply(db[0], op)] == map[0 := Apply(c, op)];
  }

  // ── What still leads back to an account ──────────────────────────────────

  /** "u" has left the room. */
  function Departed(): Conversation {
    Apply(ROOM, Leaving("u", 1, 1))
  }

  lemma DepartedIsReached()
    ensures Runs.Reached(map[0 := Departed()])
    ensures Mentions(Departed(), "u") && "u" in Departed().members && Departed().kind.Group?
    ensures Departed().operator.None?
    ensures forall i | 0 <= i < |Departed().messages| :: Departed().messages[i].sender.None?
  {
    RoomIsReached();
    WriteIsReached(ROOM, Leaving("u", 1, 1));
    assert DepartureLine(Departed().messages[0], "u");
  }

  /** Leave, then be deleted: nothing in any column names the user, and a line of the transcript still
      spells them out. */
  lemma DepartureOutlivesDeletion()
    ensures var db := map[0 := Departed()];
      var db' := Gdpr.DeleteUser(db, "u", 2);
      && Runs.Reached(db) && Runs.Reached(db')
      && 0 in db' && !Names(db'[0], "u") && Mentions(db'[0], "u")
  {
    var db: Db := map[0 := Departed()];
    DepartedIsReached();
    Runs.ReachedIsSound(db);
    Runs.StepIsReached(db, Runs.UserDeleting("u", 2));
    Gdpr.DirectThreadsGo(db, "u", 2, 0);
    Gdpr.WhatStillNamesTheUser(db, "u", 2, 0);
  }

  /** Leave, then be merged away: likewise. */
  lemma DepartureOutlivesMerge()
    ensures var db := map[0 := Departed()];
      var db' := Moved(db, "u", "s");
      && Runs.Reached(db) && Runs.Reached(db')
      && UserMerged(db, {"s"}, true, "u", "s", []) == Returned(db')
      && !Names(db'[0], "u") && Mentions(db'[0], "u")
  {
    var db: Db := map[0 := Departed()];
    DepartedIsReached();
    assert Names(db[0], "u");
    assert Stale(db, "u") == {};
    Runs.StepIsReached(db, Runs.UserMerging({"s"}, true, "u", "s", []));
    MergeKeeps.MovedForgets(db[0], "u", "s");
    var i :| 0 <= i < |Departed().messages| && DepartureLine(Departed().messages[i], "u");
    assert DepartureLine(Moved(db, "u", "s")[0].messages[i], "u");
  }

  // ── One line in the room ─────────────────────────────────────────────────

  const HELLO := Draft(1, Some("u"), TextLine, "hello", [], None, "", 1)

  const LINE := Message(1, 1, 1, Some("u"), TextLine, "hello", [], None, "", None, None, 1)

  const GREETED := ROOM.(lastSeq := 1, messages := [LINE])

  /** "u" has taken the line back. */
  const RETRACTED := ROOM.(lastSeq := 2, messages := [LINE.(body := "", deletedAt := Some(2), revision := 2)])

  /** "v" has cleared the room. */
  const SWEPT := GREETED.(members := ROOM.members["v" := NEWCOMER.(clearedAt := Some(1))])

  lemma Greets()
    ensures Apply(ROOM, Posting(HELLO)) == GREETED
  {
    assert Resurface(ROOM.members, Some("u")) == ROOM.members;
  }

  lemma GreetedIsReached()
    ensures Runs.Reached(map[0 := GREETED])
  {
    RoomIsReached();
    Greets();
    WriteIsReached(ROOM, Posting(HELLO));
  }

  lemma FirstRow(c: Conversation)
    requires c.messages != [] && c.messages[0].id == 1
    ensures IndexOf(c.messages, 1) == 0
  {
  }

  lemma RetractedIsReached()
    ensures Runs.Reached(map[0 := RETRACTED])
    ensures Apply(GREETED, Deleting(LINE, "u", 2)) == RETRACTED
  {
    GreetedIsReached();
    FirstRow(GREETED);
    assert [LINE][0 := DeletedRow(LINE, 2, 2)] == [DeletedRow(LINE, 2, 2)];
    WriteIsReached(GREETED, Deleting(LINE, "u", 2));
  }

  lemma SweptIsReached()
    ensures Runs.Reached(map[0 := SWEPT])
  {
    GreetedIsReached();
    assert Apply(GREETED, Clearing("v", 1)) == SWEPT;
    WriteIsReached(GREETED, Clearing("v", 1));
  }

  /** A message the user had deleted themselves keeps its author through the deletion of the account. */
  lemma OwnTombstoneKeepsItsAuthor()
    ensures var db := map[0 := RETRACTED];
      var db' := Gdpr.DeleteUser(db, "u", 3);
      Runs.Reached(db) && 0 in db' && Authors(db'[0], "u")
  {
    var db: Db := map[0 := RETRACTED];
    RetractedIsReached();
    Runs.ReachedIsSound(db);
    Gdpr.DirectThreadsGo(db, "u", 3, 0);
    Gdpr.AuthorsAfterDeletion(RETRACTED, "u", 3);
    assert Gdpr.OwnTombstone(RETRACTED.messages[0], "u");
  }

  /** The room once "u" has edited the line on a copy read before they took it back. */
  function Overwritten(text: string): Conversation {
    ROOM.(lastSeq := 3,
      messages := [LINE.(body := text, editedAt := Some(3), deletedAt := Some(2), revision := 3)])
  }

  /** An edit decided on a copy read before the deletion pushes its words to every subscriber, while
      the stored row, and every replay of it, shows none. */
  lemma StaleEditFrameShowsWords(text: string)
    requires text != ""
    ensures EditRefusal(LINE, "u", 0, 3).None? && Apply(RETRACTED, Editing(LINE, "u", text, 0, 3)) == Overwritten(text)
    ensures Runs.Reached(map[0 := RETRACTED]) && Runs.Reached(map[0 := Overwritten(text)])
    ensures MessagePayload(EditedRow(LINE, text, 3, 3)).body == text
    ensures MessagePayload(Overwritten(text).messages[0]).body == ""
  {
    RetractedIsReached();
    FirstRow(RETRACTED);
    var m := RETRACTED.messages[0];
    assert [m][0 := EditedRow(m, text, 3, 3)] == [EditedRow(m, text, 3, 3)];
    WriteIsReached(RETRACTED, Editing(LINE, "u", text, 0, 3));
  }

  /** "u" has edited the line. */
  const REWORDED := ROOM.(lastSeq := 2, messages := [LINE.(body := "hi", editedAt := Some(2), revision := 2)])

  lemma RewordedIsReached()
    ensures Runs.Reached(map[0 := REWORDED])
    ensures Apply(GREETED, Editing(LINE, "u", "hi", 0, 2)) == REWORDED
  {
    GreetedIsReached();
    FirstRow(GREETED);
    assert [LINE][0 := EditedRow(LINE, "hi", 2, 2)] == [EditedRow(LINE, "hi", 2, 2)];
    WriteIsReached(GREETED, Editing(LINE, "u", "hi", 0, 2));
  }

  /** One edit, and the places of a thread have a gap. */
  lemma EditLeavesAGap()
    ensures Runs.Reached(map[0 := REWORDED]) && !Allocation.PlacesAreGapless(REWORDED)
  {
    RewordedIsReached();
    assert !Allocation.Placed(REWORDED.messages, 2);
  }

  /** A deletion decided on a copy read before an edit pushes a tombstone that was never edited; the
      stored one was. */
  lemma StaleDeleteFrameForgetsTheEdit()
    ensures Runs.Reached(map[0 := REWORDED])
    ensures var c' := Apply(REWORDED, Deleting(LINE, "u", 3));
      MessagePayload(DeletedRow(LINE, 3, c'.lastSeq)) != MessagePayload(c'.messages[0])
  {
    RewordedIsReached();
    FirstRow(REWORDED);
  }

  /** "v" clears the room and is then merged into "w", who had not: the cleared line is back. */
  lemma MergeUncoversClearedLine()
    ensures Runs.Reached(map[0 := SWEPT])
    ensures LINE in SWEPT.messages && LINE !in History(SWEPT, "v") && !Cleared.MergeKeepsCleared(SWEPT, "v", "w")
  {
    SweptIsReached();
    VisibleIsExact(SWEPT.messages, Some(1), LINE);
    Cleared.MergeKeepsClearedIff(SWEPT, "v", "w");
    assert VisibleAt(SWEPT.messages[0], SWEPT.members["w"].clearedAt);
    assert !VisibleAt(SWEPT.messages[0], SWEPT.members["v"].clearedAt);
  }

  // ── Two direct threads that become one ───────────────────────────────────

  const PLAIN := CreateRace.Subject("", "", "")

  /** Guest "g" and seller "x", and the thread of survivor "s" with the same seller. */
  function GuestThread(): Conversation {
    CreateRace.NewThread(PLAIN, "g", "x")
  }

  function SurvivorThread(): Conversation {
    CreateRace.NewThread(PLAIN, "s", "x")
  }

  const ASKED := Message(1, 1, 1, Some("g"), TextLine, "hello", [], None, "", None, None, 1)

  /** The guest has written one line, and the seller has cleared the thread since. */
  function SweptGuestThread(): Conversation {
    GuestThread().(lastSeq := 1, messages := [ASKED],
      members := map["g" := NEWCOMER, "x" := NEWCOMER.(clearedAt := Some(1))])
  }

  function FreshThreads(): Db {
    map[0 := GuestThread(), 1 := SurvivorThread()]
  }

  function AskedThreads(): Db {
    FreshThreads()[0 := AskedGuestThread()]
  }

  function TwoThreads(): Db {
    AskedThreads()[0 := SweptGuestThread()]
  }

  lemma KeysOfTwo()
    ensures GuestThread().directKey != SurvivorThread().directKey
  {
    if GuestThread().directKey == SurvivorThread().directKey {
      KeyIsInjective("", "g", "x", "", "", "", "s", "x", "", "");
    }
  }

  lemma ThreadsAreOpened()
    ensures Runs.Reached(FreshThreads())
  {
    var db: Db := map[];
    Runs.EmptyIsReached();
    Runs.StepIsReached(db, Runs.OpeningDirect(0, PLAIN, "g", "x"));
    var one: Db := map[0 := GuestThread()];
    assert db[0 := GuestThread()] == one;
    KeysOfTwo();
    Runs.StepIsReached(one, Runs.OpeningDirect(1, PLAIN, "s", "x"));
    assert one[1 := SurvivorThread()] == FreshThreads();
  }

  const QUESTION := Draft(1, Some("g"), TextLine, "hello", [], None, "", 1)

  function AskedGuestThread(): Conversation {
    GuestThread().(lastSeq := 1, messages := [ASKED])
  }

  lemma GuestAsks()
    ensures Apply(GuestThread(), Posting(QUESTION)) == AskedGuestThread()
    ensures Admissible(GuestThread(), Posting(QUESTION))
  {
    assert Resurface(GuestThread().members, Some("g")) == GuestThread().members;
  }

  lemma SellerClears()
    ensures Apply(AskedGuestThread(), Clearing("x", 1)) == SweptGuestThread()
    ensures Admissible(AskedGuestThread(), Clearing("x", 1))
  {
    assert AskedGuestThread().members["x" := NEWCOMER.(clearedAt := Some(1))] == SweptGuestThread().members;
  }

  lemma NothingIsStoredYet()
    ensures !Stored(FreshThreads(), 1)
  {
  }

  lemma AskedIsReached()
    ensures Runs.Reached(AskedThreads())
  {
    ThreadsAreOpened();
    GuestAsks();
    NothingIsStoredYet();
    Runs.WriteIsReached(FreshThreads(), 0, Posting(QUESTION), AskedGuestThread());
  }

  lemma TwoThreadsAreReached()
    ensures Runs.Reached(TwoThreads())
  {
    AskedIsReached();
    SellerClears();
    Runs.WriteIsReached(AskedThreads(), 0, Clearing("x", 1), SweptGuestThread());
  }

  lemma GuestThreadIsRekeyed()
    ensures var c := Rename(SweptGuestThread(), "g", "s");
      |c.members| == 2 && KeyOf(c) == SurvivorThread().directKey
  {
    MovedMembers(SweptGuestThread(), "g", "s");
    var c := Rename(SweptGuestThread(), "g", "s");
    assert c.members.Keys == {"s", "x"};
    KeyOfPair(c, "s", "x");
  }

  lemma GuestThreadFolds()
    requires OneThreadPerKey(TwoThreads())
    ensures FoldsInto(Moved(TwoThreads(), "g", "s"), 0, 1)
  {
    var moved := Moved(TwoThreads(), "g", "s");
    MovedKeysStayApart(TwoThreads(), "g", "s");
    GuestThreadIsRekeyed();
    KeysOfTwo();
    assert moved[0] == Rename(SweptGuestThread(), "g", "s") && moved[1] == Rename(SurvivorThread(), "g", "s");
    FoldsWhereTheKeyIs(moved, 0, 1);
  }

  lemma OneStaleThread()
    ensures Stale(TwoThreads(), "g") == {0} && Lists([0], Stale(TwoThreads(), "g"))
    ensures Names(TwoThreads()[0], "g")
  {
    assert Elements([0]) == {0};
  }

  lemma FoldIsReached()
    ensures Runs.Reached(TwoThreads()) && Runs.Reached(RequalifyAll(Moved(TwoThreads(), "g", "s"), [0]))
  {
    TwoThreadsAreReached();
    OneStaleThread();
    Runs.StepIsReached(TwoThreads(), Runs.UserMerging({"s"}, true, "g", "s", [0]));
  }

  lemma FoldOutcome()
    ensures var db' := RequalifyAll(Moved(TwoThreads(), "g", "s"), [0]);
      1 in db' && db'[1] == Adopt(Rename(SurvivorThread(), "g", "s"), Rename(SweptGuestThread(), "g", "s"))
  {
    var db, db' := TwoThreads(), RequalifyAll(Moved(TwoThreads(), "g", "s"), [0]);
    TwoThreadsAreReached();
    Runs.ReachedIsSound(db);
    OneStaleThread();
    GuestThreadFolds();
    MergeKeeps.MergeHasOutcome(db, "g", "s", [0]);
    MergeKeeps.MovesIn(db, "g", "s", db', 0, 1);
  }

  /** The seller cleared the guest's thread and not the survivor's. The merge folds the one into the
      other, and the cleared line is back in the seller's history. */
  lemma FoldUncoversClearedLine()
    ensures var db' := RequalifyAll(Moved(TwoThreads(), "g", "s"), [0]);
      && Runs.Reached(TwoThreads()) && Runs.Reached(db')
      && ASKED in SweptGuestThread().messages && ASKED !in History(SweptGuestThread(), "x")
      && 1 in db' && exists m :: m in History(db'[1], "x") && m.id == ASKED.id && m.body == ASKED.body
  {
    FoldIsReached();
    FoldOutcome();
    VisibleIsExact([ASKED], Some(1), ASKED);
    FoldedLineIsShown();
  }

  lemma FoldedLineIsShown()
    ensures var c := Adopt(Rename(SurvivorThread(), "g", "s"), Rename(SweptGuestThread(), "g", "s"));
      exists m :: m in History(c, "x") && m.id == ASKED.id && m.body == ASKED.body
  {
    var winner, loser := Rename(SurvivorThread(), "g", "s"), Rename(SweptGuestThread(), "g", "s");
    var c := Adopt(winner, loser);
    Cleared.AdoptedRowIsServed(winner, loser, "x", 0);
    var m := c.messages[|winner.messages| + 0];
    assert MarkOf(c, "x") == None;
    assert m in History(c, "x") && m.id == ASKED.id && m.body == ASKED.body;
  }

  // ── A key that is cut at a space ─────────────────────────────────────────

  /** Sixty-three letters, a space, a letter. */
  function LongKey(): string {
    seq(63, _ => 'k') + " x"
  }

  function CutKey(): string {
    seq(63, _ => 'k') + " "
  }

  lemma LongKeyIsCut()
    ensures SendRace.NormalKey(LongKey()) == CutKey() && SendRace.NormalKey(CutKey()) != CutKey()
  {
    var key := LongKey();
    assert |key| == 65 && key[0] == 'k' && key[64] == 'x' && key[63] == ' ';
    StripTrims(key);
    assert Strip(key) == key;
    assert key[..64] == CutKey();
    SendRace.StoredKeyIsStable(key);
  }

  function Keyed(key: string): Draft {
    HELLO.(clientId := key)
  }

  /** A client that sends under the long key and retries under the key it was shown is not recognised:
      the retry would be a second message. The same retry under the long key is recognised. */
  lemma CutKeyIsNotARetry()
    ensures var c := Apply(ROOM, Posting(Keyed(SendRace.NormalKey(LongKey()))));
      && Runs.Reached(map[0 := c]) && c.messages[0].clientId == CutKey()
      && Services.IsRetry(c, Keyed(LongKey())) && !Services.IsRetry(c, Keyed(CutKey()))
  {
    RoomIsReached();
    LongKeyIsCut();
    var d := Keyed(SendRace.NormalKey(LongKey()));
    assert d == Keyed(CutKey());
    WriteIsReached(ROOM, Posting(d));
    var c := Apply(ROOM, Posting(d));
    assert c.messages == [NewRow(d, 1)];
  }
}
