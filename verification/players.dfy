/**
  The players of farkle.py that decide without a network: the four bots,
  whose `move` trims the roll or banks depending on how many dice are left
  (farkle.py:17-34), and the answer test of the human player
  (farkle.py:36-47).
 */
module Players {

  import opened Wrappers
  import opened Dice
  import opened Turns

  /** The four bot classes. */
  datatype Strategy =
    | RerollWithTwo
    | RerollWithThree
    | RerollWithFour
    | TakeOnlyOnesAndRerollWithThree

  /** Dice a `RerollWith`  bot needs in front of it to roll again. */
  function Threshold(s: Strategy): (t: nat)
    requires !s.TakeOnlyOnesAndRerollWithThree?
    ensures 2 <= t <= 4
  {
    match s
    case RerollWithTwo => 2
    case RerollWithThree => 3
    case RerollWithFour => 4
  }

  /** A bot's `move`: keep the trimmed roll and reroll the rest, or bank
      (`None`). `TakeOnlyOnesAndRerollWithThree` builds a roll of its ones
      when three or more dice are left and then drops it, so it banks
      there, and keeps the trimmed roll on fewer dice. */
  function Move(s: Strategy, roll: Roll): (keep: Option<Roll>)
    ensures keep.Some? ==> keep.value == Trim(roll)
    ensures !s.TakeOnlyOnesAndRerollWithThree? ==> (keep.Some? <==> |roll.dice| >= Threshold(s))
    ensures s.TakeOnlyOnesAndRerollWithThree? ==> (keep.None? <==> |roll.dice| >= 3)
  {
    match s
    case TakeOnlyOnesAndRerollWithThree =>
      if |roll.dice| >= 3 then None else Some(Trim(roll))
    case _ =>
      if |roll.dice| >= Threshold(s) then Some(Trim(roll)) else None
  }

  /** A bot only keeps dice it was offered. */
  lemma MoveKeepsOfferedDice(s: Strategy, roll: Roll)
    ensures Move(s, roll).Some? ==> multiset(Move(s, roll).value.dice) <= multiset(roll.dice)
  {
  }

  /** On a scoring roll of real dice, whatever a bot keeps passes the check
      of farkle.py:194, so a bot never gets the bad-response bank. */
  lemma MoveIsValidKeep(s: Strategy, roll: Roll)
    requires ValidFaces(roll) && Score(roll) > 0
    ensures Move(s, roll).Some? ==> ValidKeep(Move(s, roll).value)
  {
    TrimIsTrimmed(roll);
    TrimKeepsScore(roll);
  }

  /** The bot as a turn's decision maker. */
  function Bot(s: Strategy): (respond: Responder)
    ensures forall i, r :: respond(i, r) == Move(s, r)
  {
    (i: nat, r: Roll) => Move(s, r)
  }

  /** Bots are honest players. */
  lemma BotIsHonest(s: Strategy)
    ensures Honest(Bot(s))
  {
    forall i, r | Bot(s)(i, r).Some?
      ensures multiset(Bot(s)(i, r).value.dice) <= multiset(r.dice)
    {
      MoveKeepsOfferedDice(s, r);
    }
  }

  /** A bot's turn on real dice never awards negative points, and a bank
      always brings points. */
  lemma BotTurnAward(s: Strategy, throws: seq<seq<int>>)
    requires FairThrows(throws)
    ensures Turn(Bot(s), throws).Banked? ==> Turn(Bot(s), throws).points > 0
    ensures Award(Turn(Bot(s), throws)).Some? ==> Award(Turn(Bot(s), throws)).value >= 0
  {
    BotIsHonest(s);
    HonestTurnAward(Bot(s), throws);
  }

  /** The bot of the command line banks every first roll: its whole turn is
      the score of the six dice of the first throw, or a farkle. */
  lemma TakeOnlyOnesBanksFirstRoll(throws: seq<seq<int>>)
    requires FullThrows(throws) && |throws| > 0
    ensures Turn(Bot(TakeOnlyOnesAndRerollWithThree), throws) ==
      var first := Roll(throws[0]);
      if Score(first) == 0 then Farkled else Banked(Score(first))
  {
    assert RollDice(NUM_DICE, throws[0]) == Roll(throws[0]);
  }

  // ---------------------------------------------------------------------
  // The human player (farkle.py:36-47)
  // ---------------------------------------------------------------------

  /** The re-prompt condition of farkle.py:42: the typed dice are a
      sub-multiset of the roll and all of them count. */
  function HumanAccepts(keepers: Roll, roll: Roll): (ok: bool)
    ensures ok <==> multiset(keepers.dice) <= multiset(roll.dice) && IsTrimmed(keepers)
  {
    IsSubsetOf(keepers, roll) && IsTrimmed(keepers)
  }

  /** farkle.py:46: an accepted empty answer banks. */
  function HumanAnswer(keepers: Roll): (keep: Option<Roll>)
    ensures keep.None? <==> |keepers.dice| == 0
    ensures keep.Some? ==> keep.value == keepers
  {
    if |keepers.dice| == 0 then None else Some(keepers)
  }

  /** The position of the first answer the prompt loop accepts, or the
      number of answers when it accepts none. */
  function FirstAccepted(roll: Roll, answers: seq<Roll>): (j: nat)
    ensures j <= |answers|
    ensures forall i :: 0 <= i < j ==> !HumanAccepts(answers[i], roll)
    ensures j < |answers| ==> HumanAccepts(answers[j], roll)
  {
    if |answers| == 0 then 0
    else if HumanAccepts(answers[0], roll) then 0
    else
      var j := 1 + FirstAccepted(roll, answers[1..]);
      assert forall i :: 1 <= i < j ==> answers[i] == answers[1..][i - 1];
      j
  }

  /** The prompt loop over the answers the human types, in order: the first
      accepted one decides; `None` when every answer was refused. */
  function HumanMove(roll: Roll, answers: seq<Roll>): (decision: Option<Option<Roll>>)
    ensures decision.None? <==> forall j :: 0 <= j < |answers| ==> !HumanAccepts(answers[j], roll)
    ensures decision.Some? ==>
      exists j :: (0 <= j < |answers| && HumanAccepts(answers[j], roll) &&
        decision.value == HumanAnswer(answers[j]))
  {
    var j := FirstAccepted(roll, answers);
    if j == |answers| then None else Some(HumanAnswer(answers[j]))
  }

  /** On a roll of real dice, a nonempty answer the human player gets
      through the prompt passes the check of farkle.py:194; so the zero
      score test of line 47 could never fire. */
  lemma HumanKeepIsValid(keepers: Roll, roll: Roll)
    requires ValidFaces(roll) && HumanAccepts(keepers, roll)
    ensures HumanAnswer(keepers).Some? ==> ValidKeep(HumanAnswer(keepers).value)
  {
    if |keepers.dice| > 0 {
      SubRollIsFair(keepers, roll);
      TrimmedScores(keepers);
    }
  }

  /** The human player is honest: the prompt refuses dice not rolled. */
  lemma HumanIsHonest(respond: Responder)
    requires forall i, r :: respond(i, r).Some? ==> exists a :: HumanAccepts(a, r) && respond(i, r) == HumanAnswer(a)
    ensures Honest(respond)
  {
  }

}
