/** Worked turns: the first roll keeps three ones, and the second either
    banks or farkles. */
module TurnExamples {

  import opened Wrappers
  import opened Dice
  import opened Turns
  import opened DiceExamples

  /** The player of the worked example: keeps three ones from the first
      roll, then banks. */
  function KeepOnesThenBank(i: nat, r: Roll): (keep: Option<Roll>)
    ensures keep.Some? <==> i == 0
  {
    if i == 0 then Some(Roll([1, 1, 1])) else None
  }

  /** Three ones kept (1000), three fives thrown on the three dice rerolled
      (500), then a bank: the turn awards 1500. */
  lemma TurnExampleBank(throws: seq<seq<int>>)
    requires throws == [[1, 1, 1, 2, 3, 4], [5, 5, 5, 2, 3, 4]]
    ensures FullThrows(throws) && Turn(KeepOnesThenBank, throws) == Banked(1500)
  {
    FirstPass(throws);
    SecondPassBanks(throws);
  }

  /** The same start, but the three rerolled dice show no score: the turn
      farkles and the 1000 points kept are lost. */
  lemma TurnExampleFarkle(throws: seq<seq<int>>)
    requires throws == [[1, 1, 1, 2, 3, 4], [2, 3, 4, 6, 6, 6]]
    ensures FullThrows(throws) && Turn(KeepOnesThenBank, throws) == Farkled
  {
    FirstPass(throws);
    SecondPassFarkles(throws);
  }

  /** The first roll of both examples keeps three ones and rerolls three
      dice. */
  lemma FirstPass(throws: seq<seq<int>>)
    requires FullThrows(throws) && |throws| > 0 && throws[0] == [1, 1, 1, 2, 3, 4]
    ensures Turn(KeepOnesThenBank, throws) == Segment(KeepOnesThenBank, throws, 1, 3, 1000)
  {
    var roll := RollDice(NUM_DICE, throws[0]);
    assert roll.dice == [1, 1, 1, 2, 3, 4];
    FirstRollScores(roll);
    var keep := KeepOnesThenBank(0, roll).value;
    KeepScores(keep);
    assert RerollCount(roll, keep) == 3;
    ThrowGoesOn(KeepOnesThenBank, 0, NUM_DICE, throws[0], keep);
  }

  /** The second roll of both examples shows three dice; the player banks
      unless they farkle. */
  lemma SecondPass(throws: seq<seq<int>>, faces: seq<int>, roll: Roll)
    requires FullThrows(throws) && |throws| == 2 && throws[1] == faces
    requires roll.dice == faces[..3]
    ensures Segment(KeepOnesThenBank, throws, 1, 3, 1000) ==
      if Score(roll) == 0 then Farkled else Banked(1000 + Score(roll))
  {
    assert RollDice(3, throws[1]) == roll;
    assert Throw(KeepOnesThenBank, 1, 3, throws[1]) ==
      if Score(roll) == 0 then Stop(Farkled) else Stop(Banked(Score(roll)));
  }

  lemma SecondPassBanks(throws: seq<seq<int>>)
    requires FullThrows(throws) && |throws| == 2 && throws[1] == [5, 5, 5, 2, 3, 4]
    ensures Segment(KeepOnesThenBank, throws, 1, 3, 1000) == Banked(1500)
  {
    var roll := Roll(throws[1][..3]);
    FivesScore(roll);
    SecondPass(throws, throws[1], roll);
  }

  lemma SecondPassFarkles(throws: seq<seq<int>>)
    requires FullThrows(throws) && |throws| == 2 && throws[1] == [2, 3, 4, 6, 6, 6]
    ensures Segment(KeepOnesThenBank, throws, 1, 3, 1000) == Farkled
  {
    var roll := Roll(throws[1][..3]);
    StraightlessScore(roll);
    SecondPass(throws, throws[1], roll);
  }

  lemma FirstRollScores(r: Roll)
    requires r.dice == [1, 1, 1, 2, 3, 4]
    ensures Score(r) == 1000
  {
    var m := multiset(r.dice);
    assert m == multiset{1, 1, 1, 2, 3, 4};
    assert m[1] == 3 && m[2] == 1 && m[3] == 1 && m[4] == 1 && m[5] == 0 && m[6] == 0;
    FaceTable(r, 3, 1, 1, 1, 0, 0);
  }

  lemma StraightlessScore(r: Roll)
    requires r.dice == [2, 3, 4]
    ensures Score(r) == 0
  {
    var m := multiset(r.dice);
    assert m == multiset{2, 3, 4};
    assert m[1] == 0 && m[2] == 1 && m[3] == 1 && m[4] == 1 && m[5] == 0 && m[6] == 0;
    FaceTable(r, 0, 1, 1, 1, 0, 0);
  }

  lemma KeepScores(r: Roll)
    requires r.dice == [1, 1, 1]
    ensures Score(r) == 1000 && IsTrimmed(r)
  {
    var m := multiset(r.dice);
    assert m == multiset{1, 1, 1};
    assert m[1] == 3 && m[2] == 0 && m[3] == 0 && m[4] == 0 && m[5] == 0 && m[6] == 0;
    FaceTable(r, 3, 0, 0, 0, 0, 0);
    assert forall k :: k in r.dice ==> k == 1;
  }

  lemma FivesScore(r: Roll)
    requires r.dice == [5, 5, 5]
    ensures Score(r) == 500
  {
    var m := multiset(r.dice);
    assert m == multiset{5, 5, 5};
    assert m[1] == 0 && m[2] == 0 && m[3] == 0 && m[4] == 0 && m[5] == 3 && m[6] == 0;
    FaceTable(r, 0, 0, 0, 0, 3, 0);
  }

}
