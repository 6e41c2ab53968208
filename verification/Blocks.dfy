/** The block check on both of its doors: opening a direct thread, and sending into one. */
module Blocks {
  import opened Text
  import opened Rows
  import opened Store
  import DirectKey

  datatype Enforcement = Auto | Required | Off

  /** The block store at the moment it is asked: not there, there and failing, or answering with the
      blocked pairs, in whichever direction it likes. */
  datatype Provider = Unreachable | Failing | Answering(blocked: seq<(UserId, UserId)>)

  datatype Answer = Pairs(blocked: set<set<UserId>>) | CheckUnavailable

  predicate Asked(pair: (UserId, UserId)) {
    pair.0 != "" && pair.1 != "" && pair.0 != pair.1
  }

  function Unordered(answer: seq<(UserId, UserId)>): set<set<UserId>> {
    set i | 0 <= i < |answer| && answer[i].0 != "" && answer[i].1 != "" :: {answer[i].0, answer[i].1}
  }

  /** The pairs that are worth a question. */
  function Wanted(pairs: set<(UserId, UserId)>): set<(UserId, UserId)> {
    set pair | pair in pairs && Asked(pair)
  }

  function BlockedPairs(mode: Enforcement, provider: Provider, pairs: set<(UserId, UserId)>): Answer {
    if mode.Off? || Wanted(pairs) == {} then Pairs({})
    else
      match provider
      case Unreachable => if mode.Required? then CheckUnavailable else Pairs({})
      case Failing => CheckUnavailable
      case Answering(blocked) => Pairs(Unordered(blocked))
  }

  /** How often the block store is called for it. */
  function Calls(mode: Enforcement, provider: Provider, pairs: set<(UserId, UserId)>): nat {
    if mode.Off? || Wanted(pairs) == {} || provider.Unreachable? then 0 else 1
  }

  datatype Verdict = Clear | SendRefused | Unavailable

  /** The door of a thread that does not exist yet. */
  function CheckPair(mode: Enforcement, provider: Provider, a: UserId, b: UserId): Verdict {
    match BlockedPairs(mode, provider, {(a, b)})
    case CheckUnavailable => Unavailable
    case Pairs(blocked) => if {a, b} in blocked then SendRefused else Clear
  }

  function Others(c: Conversation, sender: UserId): set<UserId> {
    c.members.Keys - {sender}
  }

  /** The door of a send: direct threads only, and only where somebody is there to be reached. */
  function CheckSend(mode: Enforcement, provider: Provider, c: Conversation, sender: Option<UserId>): Verdict {
    if sender.None? || !c.kind.Direct? || Others(c, sender.value) == {} then Clear
    else
      match BlockedPairs(mode, provider, set u | u in Others(c, sender.value) :: (sender.value, u))
      case CheckUnavailable => Unavailable
      case Pairs(blocked) =>
        if exists u | u in Others(c, sender.value) :: {sender.value, u} in blocked then SendRefused else Clear
  }

  predicate Reports(answer: seq<(UserId, UserId)>, a: UserId, b: UserId) {
    exists i | 0 <= i < |answer| :: answer[i] == (a, b) || answer[i] == (b, a)
  }

  lemma UnorderedReports(answer: seq<(UserId, UserId)>, a: UserId, b: UserId)
    requires Asked((a, b))
    ensures {a, b} in Unordered(answer) <==> Reports(answer, a, b)
  {
    forall i | 0 <= i < |answer|
      ensures {answer[i].0, answer[i].1} == {a, b} <==> answer[i] == (a, b) || answer[i] == (b, a)
    {
      var x, y := answer[i].0, answer[i].1;
      assert a in {a, b} && b in {a, b} && x in {x, y} && y in {x, y};
    }
    if Reports(answer, a, b) {
      var i :| 0 <= i < |answer| && (answer[i] == (a, b) || answer[i] == (b, a));
      assert {answer[i].0, answer[i].1} in Unordered(answer);
    }
  }

  lemma OnePairIsWanted(a: UserId, b: UserId)
    ensures Wanted({(a, b)}) == if Asked((a, b)) then {(a, b)} else {}
  {
  }

  /** An outage is not consent: between two different people the door opens exactly when nobody is
      told to ask, or nobody is there to be asked and that was not declared required, or the store
      answered and named them in neither direction. It is shut as refused when the store named them, and as
      unavailable when it failed or was required and missing; and the store is asked once where there is one. */
  lemma DoorOpensIff(mode: Enforcement, provider: Provider, a: UserId, b: UserId)
    requires Asked((a, b))
    ensures CheckPair(mode, provider, a, b).Clear? <==>
      mode.Off? || (mode.Auto? && provider.Unreachable?) ||
      (provider.Answering? && !Reports(provider.blocked, a, b))
    ensures CheckPair(mode, provider, a, b).SendRefused? <==>
      !mode.Off? && provider.Answering? && Reports(provider.blocked, a, b)
    ensures CheckPair(mode, provider, a, b).Unavailable? <==>
      !mode.Off? && (provider.Failing? || (mode.Required? && provider.Unreachable?))
    ensures Calls(mode, provider, {(a, b)}) == if mode.Off? || provider.Unreachable? then 0 else 1
  {
    OnePairIsWanted(a, b);
    if provider.Answering? {
      UnorderedReports(provider.blocked, a, b);
    }
  }

  /** The two answers agree on this pair, in whichever directions each of them spells it. */
  predicate SameReport(one: Provider, two: Provider, a: UserId, b: UserId) {
    match (one, two)
    case (Answering(x), Answering(y)) => Reports(x, a, b) <==> Reports(y, a, b)
    case _ => one == two
  }

  /** Who blocked whom cannot be told from the verdict: the store is asked about the pair as the caller
      spells it and may answer each spelling differently, and as long as both answers report the pair
      or both do not, the two people are told the same. */
  lemma DirectionIsNotDisclosed(
    mode: Enforcement, store: set<(UserId, UserId)> -> Provider, a: UserId, b: UserId)
    requires SameReport(store({(a, b)}), store({(b, a)}), a, b)
    ensures CheckPair(mode, store({(a, b)}), a, b) == CheckPair(mode, store({(b, a)}), b, a)
  {
    OnePairIsWanted(a, b);
    OnePairIsWanted(b, a);
    assert {a, b} == {b, a};
    if Asked((a, b)) && store({(a, b)}).Answering? {
      UnorderedReports(store({(a, b)}).blocked, a, b);
      UnorderedReports(store({(b, a)}).blocked, a, b);
    }
  }

  /** Both doors are the same door: in a sound store a send into a direct thread gets the verdict its
      two people would get on opening it, and no other thread is ever asked about. */
  lemma SendDoorIsTheOpeningDoor(mode: Enforcement, provider: Provider, c: Conversation, sender: UserId)
    requires DirectSound(c) && sender in c.members
    ensures !c.kind.Direct? ==> CheckSend(mode, provider, c, Some(sender)).Clear?
    ensures c.kind.Direct? ==>
      exists other ::
        Between(c, sender, other) &&
        CheckSend(mode, provider, c, Some(sender)) == CheckPair(mode, provider, sender, other)
  {
    if c.kind.Direct? {
      var a, b :| Between(c, a, b);
      var other := if a == sender then b else a;
      SwapSides(c, a, b);
      assert Between(c, sender, other);
      assert Others(c, sender) == {other};
      assert (set u | u in Others(c, sender) :: (sender, u)) == {(sender, other)};
    }
  }

  lemma SwapSides(c: Conversation, a: UserId, b: UserId)
    requires Between(c, a, b)
    ensures Between(c, b, a)
  {
    DirectKey.KeyIsSymmetric(c.scope, a, b, c.subjectType, c.subjectKey);
  }
}
