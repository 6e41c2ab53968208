/** The services of one thread as they run: columns of its row, its messages and its memberships are
    reassigned in place, under the row's lock, or rolled back. */
module Services {
  import opened Text
  import opened Rows
  import Journal
  import opened Blocks
  import opened SendRace
  import Columns

  datatype Outcome = Sent(id: MsgId) | InvalidReply | Blocked(verdict: Verdict) | IntegrityError

  /** What turns a send away before anything is looked up. */
  function Refusal(c: Conversation, d: Journal.Draft, mode: Enforcement, provider: Provider): Option<Outcome> {
    if d.replyTo.Some? && IndexOf(c.messages, d.replyTo.value) == |c.messages| then Some(InvalidReply)
    else
      var verdict := CheckSend(mode, provider, c, d.sender);
      if verdict.Clear? then None else Some(Blocked(verdict))
  }

  /** A send is turned away for its reply exactly when it answers no message of this thread, and otherwise
      for what the block check says of a direct thread. */
  lemma RefusalIsExact(c: Conversation, d: Journal.Draft, mode: Enforcement, provider: Provider)
    ensures var r := Refusal(c, d, mode, provider);
      && (r == Some(InvalidReply) <==> d.replyTo.Some? && Columns.NewId(c, d.replyTo.value))
      && (r.Some? && r != Some(InvalidReply) ==>
            r == Some(Blocked(CheckSend(mode, provider, c, d.sender))) && c.kind.Direct? && d.sender.Some?)
      && (r.None? ==> CheckSend(mode, provider, c, d.sender).Clear?)
  {
    if d.replyTo.Some? && Columns.NewId(c, d.replyTo.value) {
      assert IndexOf(c.messages, d.replyTo.value) == |c.messages|;
    }
  }

  predicate IsRetry(c: Conversation, d: Journal.Draft) {
    NormalKey(d.clientId) != "" && HasKey(c, NormalKey(d.clientId))
  }

  /** One attempt: the row id it draws, whether something else collides with it, and what other
      writers of the thread get in before it and between its failure and the look for a twin. */
  datatype Try = Try(id: MsgId, collides: bool, before: seq<Journal.Op>, after: seq<Journal.Op>)

  predicate Lands(c: Conversation, d: Journal.Draft, t: Try) {
    !t.collides && Journal.Inserts(c, d.(id := t.id))
  }

  predicate HasTwin(c: Conversation, d: Journal.Draft) {
    d.clientId != "" && HasKey(c, d.clientId)
  }

  /** The retry loop against a thread that does not stand still. */
  function Attempts(c: Conversation, d: Journal.Draft, tries: seq<Try>): (Conversation, Outcome)
    decreases |tries|
  {
    if tries == [] then (c, IntegrityError)
    else
      var now := Journal.Run(c, tries[0].before);
      if Lands(now, d, tries[0]) then (Journal.PostOnce(now, d.(id := tries[0].id)), Sent(tries[0].id))
      else
        var later := Journal.Run(now, tries[0].after);
        if HasTwin(later, d) then (later, Sent(Keyed(later, d.clientId)))
        else Attempts(later, d, tries[1..])
  }

  lemma PostedIsKeyed(c: Conversation, d: Journal.Draft)
    requires d.clientId != "" && Journal.Inserts(c, d)
    ensures HasKey(Journal.PostOnce(c, d), d.clientId) && Keyed(Journal.PostOnce(c, d), d.clientId) == d.id
  {
    var rows := Journal.PostOnce(c, d).messages;
    assert rows[|c.messages|].clientId == d.clientId;
    assert forall j | 0 <= j < |c.messages| :: rows[j] == c.messages[j];
    assert IndexOfKey(rows, d.clientId) == |c.messages|;
  }

  /** Whoever else writes in between: a send that returns names the row that holds its key, and one
      that raises leaves a thread without it. */
  lemma {:induction false} AttemptsEndAtTheKey(c: Conversation, d: Journal.Draft, tries: seq<Try>)
    requires d.clientId != "" && !HasKey(c, d.clientId)
    ensures var (c', outcome) := Attempts(c, d, tries);
      && (outcome.Sent? ==> HasKey(c', d.clientId) && outcome.id == Keyed(c', d.clientId))
      && (!outcome.Sent? ==> outcome.IntegrityError? && !HasKey(c', d.clientId))
    decreases |tries|
  {
    if tries != [] {
      var now := Journal.Run(c, tries[0].before);
      if Lands(now, d, tries[0]) {
        PostedIsKeyed(now, d.(id := tries[0].id));
      } else {
        var later := Journal.Run(now, tries[0].after);
        if !HasTwin(later, d) {
          AttemptsEndAtTheKey(later, d, tries[1..]);
        }
      }
    }
  }

  /** Attempt `n` is the first to get through, or there is none. */
  ghost predicate LandsAt(c: Conversation, d: Journal.Draft, tries: seq<Try>, n: nat) {
    && n <= |tries|
    && (forall i | 0 <= i < n :: !Lands(c, d, tries[i]))
    && (n < |tries| ==> Lands(c, d, tries[n]))
  }

  /** With nobody else writing, the first attempt nothing stands in the way of is the one that lands,
      and when all of them fail the thread is as it was. */
  lemma {:induction false} AttemptsAlone(c: Conversation, d: Journal.Draft, tries: seq<Try>) returns (n: nat)
    requires !HasTwin(c, d) && forall i | 0 <= i < |tries| :: tries[i].before == [] && tries[i].after == []
    ensures LandsAt(c, d, tries, n)
    ensures Attempts(c, d, tries) ==
      if n == |tries| then (c, IntegrityError)
      else (Journal.PostOnce(c, d.(id := tries[n].id)), Sent(tries[n].id))
    decreases |tries|
  {
    if tries == [] || Lands(c, d, tries[0]) {
      n := 0;
    } else {
      var m := AttemptsAlone(c, d, tries[1..]);
      n := m + 1;
      assert forall i | 0 < i < n :: tries[i] == tries[1..][i - 1];
    }
  }

  predicate SameShell(c: Conversation, c': Conversation) {
    && c'.kind == c.kind && c'.scope == c.scope && c'.directKey == c.directKey
    && c'.subjectType == c.subjectType && c'.subjectKey == c.subjectKey
  }

  lemma StepKeepsShell(c: Conversation, op: Journal.Op)
    ensures SameShell(c, Journal.Apply(c, op))
  {
  }

  /** No writer touches what identifies a thread. */
  lemma {:induction false} ShellStays(c: Conversation, ops: seq<Journal.Op>)
    ensures SameShell(c, Journal.Run(c, ops))
  {
    if ops != [] {
      ShellStays(c, ops[..|ops| - 1]);
      StepKeepsShell(Journal.Run(c, ops[..|ops| - 1]), ops[|ops| - 1]);
    }
  }

  class Thread {
    const kind: ConversationKind
    const scope: string
    const directKey: string
    const subjectType: string
    const subjectKey: string
    var operator: Option<UserId>
    var lastSeq: nat
    var messages: seq<Message>
    var members: map<UserId, Participant>

    function State(): Conversation
      reads this
    {
      Conversation(kind, scope, directKey, subjectType, subjectKey, operator, lastSeq, messages, members)
    }

    constructor (row: Conversation)
      ensures State() == row
    {
      kind, scope, directKey := row.kind, row.scope, row.directKey;
      subjectType, subjectKey, operator := row.subjectType, row.subjectKey, row.operator;
      lastSeq, messages, members := row.lastSeq, row.messages, row.members;
    }

    // ── Sending ────────────────────────────────────────────────────────────

    /** The one counter behind both the place of a message and every later revision. */
    method AllocateSeq() returns (number: nat)
      modifies this`lastSeq
      ensures number == lastSeq == old(lastSeq) + 1
    {
      lastSeq := lastSeq + 1;
      number := lastSeq;
    }

    method ResurfaceParticipants(sender: Option<UserId>)
      modifies this`members
      ensures members == Journal.Resurface(old(members), sender)
    {
      if sender.None? {
        return;
      }
      members := map u | u in members :: members[u].(leftAt := None);
    }

    /** One transaction. An integrity error gives the number back. */
    method PostOnce(d: Journal.Draft, collides: bool) returns (posted: bool)
      modifies this`lastSeq, this`messages, this`members
      ensures posted <==> !collides && Journal.Inserts(old(State()), d)
      ensures State() == if posted then Journal.PostOnce(old(State()), d) else old(State())
    {
      var before := lastSeq;
      var number := AllocateSeq();
      var taken := d.clientId != "" && IndexOfKey(messages, d.clientId) < |messages|;
      if collides || taken || IndexOf(messages, d.id) < |messages| {
        lastSeq := before;
        return false;
      }
      messages := messages + [Message(d.id, number, number, d.sender, d.kind, d.body, d.attachments, d.replyTo,
        d.clientId, None, None, d.at)];
      ResurfaceParticipants(d.sender);
      posted := true;
    }

    /** What the other writers do while this send holds no lock. */
    method OthersWrite(ops: seq<Journal.Op>)
      modifies this
      ensures State() == Journal.Run(old(State()), ops)
    {
      ShellStays(State(), ops);
      var c := Journal.Run(State(), ops);
      operator, lastSeq, messages, members := c.operator, c.lastSeq, c.messages, c.members;
    }

    /** Attempts in turn until one lands or a twin is found. */
    method Insert(d: Journal.Draft, tries: seq<Try>) returns (outcome: Outcome)
      modifies this
      ensures (State(), outcome) == Attempts(old(State()), d, tries)
    {
      var i := 0;
      while i < |tries|
        invariant i <= |tries|
        invariant Attempts(old(State()), d, tries) == Attempts(State(), d, tries[i..])
      {
        assert tries[i..][0] == tries[i] && tries[i..][1..] == tries[i + 1..];
        OthersWrite(tries[i].before);
        var posted := PostOnce(d.(id := tries[i].id), tries[i].collides);
        if posted {
          return Sent(tries[i].id);
        }
        OthersWrite(tries[i].after);
        if d.clientId != "" {
          var twin := IndexOfKey(messages, d.clientId);
          if twin < |messages| {
            return Sent(messages[twin].id);
          }
        }
        i := i + 1;
      }
      outcome := IntegrityError;
    }

    /** A send: a reply must answer a message of this thread; then the block check, even for a retry;
        a key already here answers with its row and changes nothing; otherwise the bounded attempts,
        each of which inserts, finds a twin, or changes nothing. */
    method PostMessage(d: Journal.Draft, mode: Enforcement, provider: Provider, tries: seq<Try>)
      returns (outcome: Outcome)
      requires |tries| == MAX_SEQ_RETRIES
      modifies this
      ensures var early := Refusal(old(State()), d, mode, provider);
        (State(), outcome) ==
          if early.Some? then (old(State()), early.value)
          else if IsRetry(old(State()), d) then (old(State()), Sent(Keyed(old(State()), NormalKey(d.clientId))))
          else Attempts(old(State()), d.(clientId := NormalKey(d.clientId)), tries)
    {
      if d.replyTo.Some? && IndexOf(messages, d.replyTo.value) == |messages| {
        return InvalidReply;
      }
      var verdict := CheckSend(mode, provider, State(), d.sender);
      if !verdict.Clear? {
        return Blocked(verdict);
      }
      var key := NormalKey(d.clientId);
      if key != "" {
        var existing := IndexOfKey(messages, key);
        if existing < |messages| {
          return Sent(messages[existing].id);
        }
      }
      outcome := Insert(d.(clientId := key), tries);
    }

    // ── Changing a message ─────────────────────────────────────────────────

    /** The checks read the caller's copy; the write takes the lock. */
    method EditMessage(copy: Message, editor: UserId, text: string, window: nat, at: Time)
      returns (refusal: Option<Journal.Refusal>)
      modifies this`lastSeq, this`messages
      ensures refusal == None <==> Columns.MayEdit(copy, editor, window, at)
      ensures refusal == Some(Journal.MessageGone) <==> copy.deletedAt.Some?
      ensures refusal == Some(Journal.NotAuthor) <==>
        copy.deletedAt.None? && copy.kind == TextLine && copy.sender != Some(editor)
      ensures State() == Journal.Apply(old(State()), Journal.Editing(copy, editor, text, window, at))
      ensures refusal.Some? ==> State() == old(State())
    {
      if !copy.Live() {
        return Some(Journal.MessageGone);
      }
      if !copy.kind.TextLine? {
        return Some(Journal.NotEditable);
      }
      if copy.sender != Some(editor) {
        return Some(Journal.NotAuthor);
      }
      if window > 0 && at - copy.createdAt > window {
        return Some(Journal.NotEditable);
      }
      var i := IndexOf(messages, copy.id);
      if i < |messages| {
        var revision := AllocateSeq();
        messages := messages[i := messages[i].(body := text, editedAt := Some(at), revision := revision)];
      }
      refusal := None;
    }

    /** Deleting twice on the same copy is idempotent: no number, no second event. */
    method DeleteMessage(copy: Message, actor: UserId, at: Time) returns (refusal: Option<Journal.Refusal>)
      modifies this`lastSeq, this`messages
      ensures refusal == if copy.sender != Some(actor) then Some(Journal.NotAuthor) else None
      ensures State() == Journal.Apply(old(State()), Journal.Deleting(copy, actor, at))
    {
      if copy.sender != Some(actor) {
        return Some(Journal.NotAuthor);
      }
      refusal := None;
      if !copy.Live() {
        return;
      }
      var i := IndexOf(messages, copy.id);
      if i < |messages| {
        var revision := AllocateSeq();
        messages := messages[i :=
          messages[i].(body := "", attachments := [], deletedAt := Some(at), revision := revision)];
      }
    }

    // ── One member's own columns ───────────────────────────────────────────

    /** The stamp and the line that announces it are one transaction. */
    method Leave(user: UserId, line: MsgId, at: Time) returns (changed: bool)
      modifies this`lastSeq, this`messages, this`members
      ensures State() == Journal.Leave(old(State()), user, line, at)
      ensures changed ==> user in old(members) && old(members)[user].leftAt.None?
      ensures changed ==> user in members && members[user] == old(members)[user].(leftAt := Some(at))
      ensures changed ==> |messages| == |old(messages)| + 1
      ensures !changed ==> State() == old(State())
    {
      if user !in members || members[user].leftAt.Some? {
        return false;
      }
      var before := members;
      members := members[user := members[user].(leftAt := Some(at))];
      changed := PostOnce(Journal.LeftLine(user, line, at), false);
      if !changed {
        members := before;
      }
    }

    method Rejoin(user: UserId) returns (changed: bool)
      modifies this`members
      ensures State() == Journal.Rejoin(old(State()), user)
      ensures changed <==> user in old(members) && old(members)[user].leftAt.Some?
    {
      changed := user in members && members[user].leftAt.Some?;
      if changed {
        members := members[user := members[user].(leftAt := None)];
      } else if user in members {
        assert members == members[user := members[user].(leftAt := None)];
      }
    }

    /** "From here": a second call moves the mark again. */
    method Clear(user: UserId, at: Time) returns (mark: Option<Time>)
      modifies this`members
      ensures State() == Journal.Clear(old(State()), user, at)
      ensures mark == if user in old(members) then Some(at) else None
    {
      if user !in members {
        return None;
      }
      members := members[user := members[user].(clearedAt := Some(at))];
      mark := Some(at);
    }

    method MarkRead(user: UserId, upto: nat) returns (moved: bool)
      modifies this`members
      ensures State() == Journal.MarkRead(old(State()), user, upto)
      ensures moved <==> user in old(members) && old(members)[user].lastRead < upto
      ensures members.Keys == old(members).Keys
      ensures user in members ==>
        members[user] == old(members)[user].(lastRead := Journal.Max(old(members)[user].lastRead, upto))
    {
      moved := user in members && members[user].lastRead < upto;
      if moved {
        members := members[user := members[user].(lastRead := upto)];
      }
    }

    method MarkDelivered(user: UserId, upto: nat) returns (moved: bool)
      modifies this`members
      ensures State() == Journal.MarkDelivered(old(State()), user, upto)
      ensures moved <==> user in old(members) && old(members)[user].lastDelivered < upto
      ensures members.Keys == old(members).Keys
      ensures user in members ==>
        members[user] == old(members)[user].(lastDelivered := Journal.Max(old(members)[user].lastDelivered, upto))
    {
      moved := user in members && members[user].lastDelivered < upto;
      if moved {
        members := members[user := members[user].(lastDelivered := upto)];
      }
    }
  }
}
