/** The worked examples of the scoring and trimming rules, checked against
    the general definitions of module Dice. */
module DiceExamples {

  import opened Dice

  /** The single-group examples: three ones are 1000, two ones 200, three
      fives 500 and three twos 200. */
  lemma ScoreExamples()
    ensures Score(Roll([1, 1, 1])) == 1000
    ensures Score(Roll([1, 1])) == 200
    ensures Score(Roll([5, 5, 5])) == 500
    ensures Score(Roll([2, 2, 2])) == 200
  {
    ThreeOfAKind(1);
    PairOfAKind(1);
    ThreeOfAKind(5);
    ThreeOfAKind(2);
  }

  lemma ThreeOfAKind(k: int)
    ensures Score(Roll([k, k, k])) == FaceScore(k, 3)
  {
    SingleGroupScore(k, [k, k, k]);
  }

  lemma PairOfAKind(k: int)
    ensures Score(Roll([k, k])) == FaceScore(k, 2)
  {
    SingleGroupScore(k, [k, k]);
  }

  /** Groups of different faces add up: three ones and a five make 1050. */
  lemma ScoreExampleMixed()
    ensures Score(Roll([1, 1, 1, 5])) == 1050
  {
    MixedScore(Roll([1, 1, 1, 5]));
  }

  lemma MixedScore(r: Roll)
    requires r.dice == [1, 1, 1, 5]
    ensures Score(r) == 1050
  {
    var m := multiset(r.dice);
    assert m == multiset{1, 1, 1, 5};
    assert m[1] == 3 && m[2] == 0 && m[3] == 0 && m[4] == 0 && m[5] == 1 && m[6] == 0;
    FaceTable(r, 3, 0, 0, 0, 1, 0);
  }

  /** The score of a roll of real dice from its six face counts. */
  lemma FaceTable(r: Roll, c1: nat, c2: nat, c3: nat, c4: nat, c5: nat, c6: nat)
    requires ValidFaces(r)
    requires Count(r, 1) == c1 && Count(r, 2) == c2 && Count(r, 3) == c3
    requires Count(r, 4) == c4 && Count(r, 5) == c5 && Count(r, 6) == c6
    ensures Score(r) == FaceScore(1, c1) + FaceScore(2, c2) + FaceScore(3, c3) +
      FaceScore(4, c4) + FaceScore(5, c5) + FaceScore(6, c6)
  {
    ScoreTable(r);
  }

  /** A roll whose dice all show `k` scores the value of that one group. */
  lemma SingleGroupScore(k: int, d: seq<int>)
    requires |d| > 0
    requires forall i :: 0 <= i < |d| ==> d[i] == k
    ensures Score(Roll(d)) == FaceScore(k, |d|)
  {
    SameFaceCount(k, d);
    WithoutMembers(d, k);
    GroupSizeIsCount(d, k);
    assert forall j :: j !in Without(d, k);
  }

  lemma {:induction false} SameFaceCount(k: int, d: seq<int>)
    requires forall i :: 0 <= i < |d| ==> d[i] == k
    ensures multiset(d)[k] == |d|
  {
    if |d| > 0 {
      SameFaceCount(k, d[1..]);
      assert d == [d[0]] + d[1..];
    }
  }

  /** A lone three is dropped from three twos. */
  lemma TrimExampleTwos()
    ensures multiset(Trim(Roll([2, 2, 2, 3])).dice) == multiset{2, 2, 2}
  {
    TrimTwos(Roll([2, 2, 2, 3]));
  }

  lemma TrimTwos(r: Roll)
    requires multiset(r.dice) == multiset{2, 2, 2, 3}
    ensures multiset(Trim(r).dice) == multiset{2, 2, 2}
  {
    forall k ensures multiset(Trim(r).dice)[k] == multiset{2, 2, 2}[k] {
      TrimTwosFace(r, k);
    }
  }

  lemma TrimTwosFace(r: Roll, k: int)
    requires multiset(r.dice) == multiset{2, 2, 2, 3}
    ensures multiset(Trim(r).dice)[k] == multiset{2, 2, 2}[k]
  {
    SmallGroupTrim(r, k);
  }

  /** Of one die of each face only the one and the five stay. */
  lemma TrimExampleStraight()
    ensures multiset(Trim(Roll([1, 2, 3, 4, 5, 6])).dice) == multiset{1, 5}
  {
    TrimStraight(Roll([1, 2, 3, 4, 5, 6]));
  }

  lemma TrimStraight(r: Roll)
    requires multiset(r.dice) == multiset{1, 2, 3, 4, 5, 6}
    ensures multiset(Trim(r).dice) == multiset{1, 5}
  {
    forall k ensures multiset(Trim(r).dice)[k] == multiset{1, 5}[k] {
      TrimStraightFace(r, k);
    }
  }

  lemma TrimStraightFace(r: Roll, k: int)
    requires multiset(r.dice) == multiset{1, 2, 3, 4, 5, 6}
    ensures multiset(Trim(r).dice)[k] == multiset{1, 5}[k]
  {
    StraightCount(r, k);
    SmallGroupTrim(r, k);
  }

  lemma StraightCount(r: Roll, k: int)
    requires multiset(r.dice) == multiset{1, 2, 3, 4, 5, 6}
    ensures Count(r, k) == if 1 <= k <= DIE_SIZE then 1 else 0
  {
    if k == 1 {} else if k == 2 {} else if k == 3 {} else if k == 4 {} else if k == 5 {} else if k == 6 {}
  }

  /** A group of at most three dice survives the trim whole or not at
      all. */
  lemma SmallGroupTrim(r: Roll, k: int)
    requires Count(r, k) <= 3
    ensures Count(Trim(r), k) == if Trimmable(k) && Count(r, k) < 3 then 0 else Count(r, k)
  {
    if Trimmable(k) {
      SmallTriples(Count(Trim(r), k), Count(r, k));
    }
  }

  lemma SmallTriples(c: nat, total: nat)
    requires WholeTriplesOf(c, total) && total <= 3
    ensures c == if total == 3 then 3 else 0
  {
  }

  /** Ones and fives always count, a pair of twos does not, and the empty
      roll has nothing to trim. */
  lemma IsTrimmedExamples()
    ensures IsTrimmed(Roll([1, 5]))
    ensures !IsTrimmed(Roll([2, 2]))
    ensures IsTrimmed(Roll([]))
  {
    assert multiset([2, 2])[2] == 2;
    forall k | k in [1, 5] ensures k == 1 || k == 5 {
    }
  }

  /** Duplicates count: two ones fit in `1 1 5`, three do not. */
  lemma SubsetExamples()
    ensures IsSubsetOf(Roll([1, 1]), Roll([1, 1, 5]))
    ensures !IsSubsetOf(Roll([1, 1, 1]), Roll([1, 1, 5]))
  {
    assert multiset([1, 1]) == multiset{1, 1};
    assert multiset([1, 1, 5]) == multiset{1, 1, 5};
    assert multiset([1, 1, 1]) == multiset{1, 1, 1};
    assert multiset([1, 1, 1])[1] > multiset([1, 1, 5])[1];
  }

}
