/**
  The turn state machine of `Game.turn` (farkle.py:179-208). The random
  dice generator is replaced by a supplied list of throws, each holding the
  six faces the generator would show; a roll of `n` dice shows the first `n`
  of them. A turn that needs more throws than supplied ends `Unfinished`.
 */
module Turns {

  import opened Wrappers
  import opened Dice

  /** Number of dice rolled at the start of a turn (NUM_DICE). */
  const NUM_DICE: int := 6

  /** A player's decision on the `i`-th roll of a turn: `Some(keep)` keeps
      those dice and rerolls the rest, `None` banks. */
  type Responder = (nat, Roll) -> Option<Roll>

  /** Every throw holds one face per die of the pool. */
  predicate FullThrows(throws: seq<seq<int>>) {
    forall i :: 0 <= i < |throws| ==> |throws[i]| == NUM_DICE
  }

  /** Every throw holds six faces of real dice. */
  predicate FairThrows(throws: seq<seq<int>>) {
    FullThrows(throws) && forall i :: 0 <= i < |throws| ==> ValidFaces(Roll(throws[i]))
  }

  /** The player keeps only dice of the roll offered (as every player of
      the program does: the bots keep a trimmed roll, the human and remote
      players are checked with `isSubsetOf`). */
  ghost predicate Honest(respond: Responder) {
    forall i, r :: respond(i, r).Some? ==> multiset(respond(i, r).value.dice) <= multiset(r.dice)
  }

  /** `Roll(n)`: `n` dice, none at all when `n` is not positive (Python's
      `range(n)` is then empty). */
  function RollDice(n: int, faces: seq<int>): (r: Roll)
    requires |faces| == NUM_DICE && n <= NUM_DICE
    ensures |r.dice| == if n <= 0 then 0 else n
    ensures multiset(r.dice) <= multiset(faces)
  {
    if n <= 0 then Roll([])
    else
      assert faces == faces[..n] + faces[n..];
      Roll(faces[..n])
  }

  /** The check of farkle.py:194: the kept dice all count and score. */
  predicate ValidKeep(keep: Roll): (ok: bool)
    ensures ok ==> |keep.dice| > 0
  {
    IsTrimmed(keep) && Score(keep) != 0
  }

  /** Dice to roll after keeping `keep` out of `roll`: the rest, or all six
      again when every die was kept (hot dice). */
  function RerollCount(roll: Roll, keep: Roll): (n: int)
    ensures |keep.dice| == |roll.dice| ==> n == NUM_DICE
    ensures |keep.dice| != |roll.dice| ==> n + |keep.dice| == |roll.dice|
  {
    var left := |roll.dice| - |keep.dice|;
    if left == 0 then NUM_DICE else left
  }

  /** How a turn ends: a farkle, a bank with the turn's points, or the
      supplied throws ran out before the turn ended. */
  datatype Outcome = Farkled | Banked(points: int) | Unfinished

  /** Points the turn awards (`turnscore`); a farkle awards nothing. */
  function Award(o: Outcome): Option<int> {
    match o
    case Farkled => Some(0)
    case Banked(p) => Some(p)
    case Unfinished => None
  }

  /** What one pass of the `while True` loop decides: the turn ends with
      an outcome (points counted from this throw on), or it goes on with
      `reroll` dice and `points` more kept. */
  datatype Pass = Stop(outcome: Outcome) | Go(reroll: int, points: int)

  /** A response that ends the turn with a bank: `None`, or a keep that
      fails the check of farkle.py:194. */
  predicate BadOrNoKeep(response: Option<Roll>) {
    response.None? || !ValidKeep(response.value)
  }

  /** One pass of the loop: throw `n` dice from `faces` and ask the player
      (`k` counts the rolls of the turn). A roll that scores nothing
      farkles; a bank, or a keep that fails the check of farkle.py:194,
      banks the roll's score. */
  function Throw(respond: Responder, k: nat, n: int, faces: seq<int>): (p: Pass)
    requires |faces| == NUM_DICE && n <= NUM_DICE
    ensures p.Stop? ==> !p.outcome.Unfinished?
    ensures p == Stop(Farkled) <==> Score(RollDice(n, faces)) == 0
    ensures p.Stop? && p.outcome.Banked? ==> p.outcome.points == Score(RollDice(n, faces)) != 0
    ensures Score(RollDice(n, faces)) != 0 && !BadOrNoKeep(respond(k, RollDice(n, faces))) ==>
      p == Go(RerollCount(RollDice(n, faces), respond(k, RollDice(n, faces)).value),
              Score(respond(k, RollDice(n, faces)).value))
    ensures Score(RollDice(n, faces)) != 0 && BadOrNoKeep(respond(k, RollDice(n, faces))) ==>
      p == Stop(Banked(Score(RollDice(n, faces))))
    ensures p.Go? ==> p.reroll <= NUM_DICE && p.points != 0
  {
    var roll := RollDice(n, faces);
    if Score(roll) == 0 then Stop(Farkled)
    else
      match respond(k, roll)
      case None => Stop(Banked(Score(roll)))
      case Some(keep) =>
        if ValidKeep(keep) then Go(RerollCount(roll, keep), Score(keep))
        else Stop(Banked(Score(roll)))
  }

  /** A keep that passes the check goes on with the rest of the dice. */
  lemma ThrowGoesOn(respond: Responder, k: nat, n: int, faces: seq<int>, keep: Roll)
    requires |faces| == NUM_DICE && n <= NUM_DICE
    requires Score(RollDice(n, faces)) != 0 && respond(k, RollDice(n, faces)) == Some(keep)
    requires ValidKeep(keep)
    ensures Throw(respond, k, n, faces) == Go(RerollCount(RollDice(n, faces), keep), Score(keep))
  {
  }

  /** The passes of the loop from throw `k` on, `n` dice in hand and `kept`
      points already kept this turn. */
  function Segment(respond: Responder, throws: seq<seq<int>>, k: nat, n: int, kept: int): (o: Outcome)
    requires FullThrows(throws) && n <= NUM_DICE
    decreases |throws| - k
  {
    if k >= |throws| then Unfinished
    else
      match Throw(respond, k, n, throws[k])
      case Stop(o) => Carry(o, kept)
      case Go(m, points) => Segment(respond, throws, k + 1, m, kept + points)
  }

  /** A roll that scores nothing ends the turn with a farkle, whatever was
      kept before (farkle.py:184-187). */
  lemma ZeroRollFarkles(respond: Responder, throws: seq<seq<int>>, k: nat, n: int, kept: int)
    requires FullThrows(throws) && n <= NUM_DICE && k < |throws|
    requires Score(RollDice(n, throws[k])) == 0
    ensures Segment(respond, throws, k, n, kept) == Farkled
  {
  }

  /** On a scoring roll, a bank or a keep that fails the check of
      farkle.py:194 ends the turn with the points kept so far plus the
      score of the whole roll (farkle.py:189-193, 201-207). */
  lemma BankAddsRoll(respond: Responder, throws: seq<seq<int>>, k: nat, n: int, kept: int)
    requires FullThrows(throws) && n <= NUM_DICE && k < |throws|
    requires Score(RollDice(n, throws[k])) != 0
    requires BadOrNoKeep(respond(k, RollDice(n, throws[k])))
    ensures Segment(respond, throws, k, n, kept) == Banked(kept + Score(RollDice(n, throws[k])))
  {
  }

  /** A valid keep on a scoring roll goes on to the next throw with the
      dice left and the keep's points added (farkle.py:194-200). */
  lemma KeepGoesOn(respond: Responder, throws: seq<seq<int>>, k: nat, n: int, kept: int)
    requires FullThrows(throws) && n <= NUM_DICE && k < |throws|
    requires Score(RollDice(n, throws[k])) != 0
    requires !BadOrNoKeep(respond(k, RollDice(n, throws[k])))
    ensures var keep := respond(k, RollDice(n, throws[k])).value;
      Segment(respond, throws, k, n, kept) ==
      Segment(respond, throws, k + 1, RerollCount(RollDice(n, throws[k]), keep), kept + Score(keep))
  {
  }

  /** A whole turn: six dice, nothing kept yet. */
  function Turn(respond: Responder, throws: seq<seq<int>>): (o: Outcome)
    requires FullThrows(throws)
    ensures |throws| == 0 ==> o == Unfinished
    ensures |throws| > 0 && Score(Roll(throws[0])) == 0 ==> o == Farkled
    ensures |throws| > 0 && Score(Roll(throws[0])) != 0 && respond(0, Roll(throws[0])).None? ==>
      o == Banked(Score(Roll(throws[0])))
  {
    assert |throws| > 0 ==> RollDice(NUM_DICE, throws[0]) == Roll(throws[0]);
    Segment(respond, throws, 0, NUM_DICE, 0)
  }

  /** Adds points kept earlier to a bank; a farkle keeps nothing. */
  function Carry(o: Outcome, kept: int): Outcome {
    match o
    case Banked(p) => Banked(p + kept)
    case _ => o
  }

  /** Points kept earlier in the turn do not influence how the rest of the
      turn goes: they are added to the bank, and a farkle wipes them out. */
  lemma {:induction false} KeptPointsCarry(respond: Responder, throws: seq<seq<int>>, k: nat, n: int, kept: int)
    requires FullThrows(throws) && n <= NUM_DICE
    ensures Segment(respond, throws, k, n, kept) == Carry(Segment(respond, throws, k, n, 0), kept)
    decreases |throws| - k
  {
    if k < |throws| {
      var pass := Throw(respond, k, n, throws[k]);
      if pass.Go? {
        KeptPointsCarry(respond, throws, k + 1, pass.reroll, kept + pass.points);
        KeptPointsCarry(respond, throws, k + 1, pass.reroll, pass.points);
        CarryTwice(Segment(respond, throws, k + 1, pass.reroll, 0), pass.points, kept);
      } else {
        CarryTwice(pass.outcome, 0, kept);
      }
    }
  }

  lemma CarryTwice(o: Outcome, first: int, second: int)
    ensures Carry(Carry(o, first), second) == Carry(o, second + first)
  {
  }

  /** With real dice and a player who keeps only dice it was offered, every
      roll and every keep scores, so a banked turn ends above the points it
      started from. */
  lemma {:induction false} HonestSegmentGains(respond: Responder, throws: seq<seq<int>>, k: nat, n: int, kept: int)
    requires FairThrows(throws) && Honest(respond) && n <= NUM_DICE
    ensures Segment(respond, throws, k, n, kept).Banked? ==>
      Segment(respond, throws, k, n, kept).points > kept
    decreases |throws| - k
  {
    if k < |throws| {
      var pass := Throw(respond, k, n, throws[k]);
      HonestThrowGains(respond, k, n, throws[k]);
      if pass.Go? {
        HonestSegmentGains(respond, throws, k + 1, pass.reroll, kept + pass.points);
      }
    }
  }

  /** On real dice, an honest player's pass banks or keeps some points. */
  lemma HonestThrowGains(respond: Responder, k: nat, n: int, faces: seq<int>)
    requires |faces| == NUM_DICE && n <= NUM_DICE && ValidFaces(Roll(faces)) && Honest(respond)
    ensures Throw(respond, k, n, faces).Go? ==> Throw(respond, k, n, faces).points > 0
    ensures Throw(respond, k, n, faces).Stop? && Throw(respond, k, n, faces).outcome.Banked? ==>
      Throw(respond, k, n, faces).outcome.points > 0
  {
    var roll := RollDice(n, faces);
    RollIsFair(n, faces);
    ScoreNonNegative(roll);
    if Score(roll) != 0 {
      match respond(k, roll)
      case None =>
      case Some(keep) =>
        if ValidKeep(keep) {
          SubRollIsFair(keep, roll);
          ScoreNonNegative(keep);
        }
    }
  }

  lemma RollIsFair(n: int, faces: seq<int>)
    requires |faces| == NUM_DICE && n <= NUM_DICE && ValidFaces(Roll(faces))
    ensures ValidFaces(RollDice(n, faces))
  {
  }

  lemma SubRollIsFair(keep: Roll, roll: Roll)
    requires ValidFaces(roll) && multiset(keep.dice) <= multiset(roll.dice)
    ensures ValidFaces(keep)
  {
    forall i | 0 <= i < |keep.dice| ensures 1 <= keep.dice[i] <= DIE_SIZE {
      assert keep.dice[i] in multiset(keep.dice);
      assert keep.dice[i] in multiset(roll.dice);
      var j :| 0 <= j < |roll.dice| && roll.dice[j] == keep.dice[i];
    }
  }

  /** An honest player's turn never awards negative points, and a turn that
      does not farkle awards some. */
  lemma HonestTurnAward(respond: Responder, throws: seq<seq<int>>)
    requires FairThrows(throws) && Honest(respond)
    ensures Turn(respond, throws).Banked? ==> Turn(respond, throws).points > 0
    ensures Award(Turn(respond, throws)).Some? ==> Award(Turn(respond, throws)).value >= 0
  {
    HonestSegmentGains(respond, throws, 0, NUM_DICE, 0);
  }

  /** farkle.py:194 does not check that the kept dice come from the roll.
      A valid keep with more dice than were rolled asks for a negative
      number of dice; that roll is empty, so the turn farkles. */
  lemma OverlongKeepFarkles(respond: Responder, throws: seq<seq<int>>, k: nat, n: int, kept: int)
    requires FullThrows(throws) && n <= NUM_DICE && k + 1 < |throws|
    requires Score(RollDice(n, throws[k])) != 0
    requires respond(k, RollDice(n, throws[k])).Some?
    requires ValidKeep(respond(k, RollDice(n, throws[k])).value)
    requires |respond(k, RollDice(n, throws[k])).value.dice| > |RollDice(n, throws[k]).dice|
    ensures Segment(respond, throws, k, n, kept) == Farkled
  {
    var roll := RollDice(n, throws[k]);
    var keep := respond(k, roll).value;
    var m := RerollCount(roll, keep);
    ThrowGoesOn(respond, k, n, throws[k], keep);
    assert m < 0;
    assert RollDice(m, throws[k + 1]) == Roll([]);
    assert Throw(respond, k + 1, m, throws[k + 1]) == Stop(Farkled);
  }

}
