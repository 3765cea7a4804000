/**
  The `Roll` algebra of farkle.py: a roll is a list of die faces, scored by
  grouping equal faces, compared as a multiset, and trimmed down to the dice
  that contribute to its score.
 */
module Dice {

  /** Number of faces of a die (DIE_SIZE). */
  const DIE_SIZE: int := 6

  /** A roll keeps its dice in the order they were produced or typed in.
      Faces are arbitrary integers: a player may name any value. */
  datatype Roll = Roll(dice: seq<int>)

  /** Every die shows a face of a real die. */
  predicate ValidFaces(r: Roll) {
    forall i :: 0 <= i < |r.dice| ==> 1 <= r.dice[i] <= DIE_SIZE
  }

  /** Number of dice of face `k` in `r`. */
  function Count(r: Roll, k: int): nat {
    multiset(r.dice)[k]
  }

  /** The faces that `trim` cuts down to whole triples. */
  predicate Trimmable(k: int) {
    k == 2 || k == 3 || k == 4 || k == 6
  }

  /** Points a group of `reps` dice showing face `k` is worth. */
  function FaceScore(k: int, reps: nat): int {
    if k == 1 then 1000 * (reps / 3) + 100 * (reps % 3)
    else if k == 5 then 500 * (reps / 3) + 50 * (reps % 3)
    else k * 100 * (reps / 3)
  }

  // ---------------------------------------------------------------------
  // List helpers: Python's `list.remove` and dropping a whole face group.
  // ---------------------------------------------------------------------

  /** `list.remove(x)`: deletes the first occurrence of `x`. */
  function RemoveFirst(d: seq<int>, x: int): (r: seq<int>)
    requires x in d
    ensures multiset(r) == multiset(d)[x := multiset(d)[x] - 1]
    ensures |r| == |d| - 1
  {
    assert d == [d[0]] + d[1..];
    if d[0] == x then d[1..]
    else [d[0]] + RemoveFirst(d[1..], x)
  }

  /** The dice of `d` that do not show face `k`, in their original order. */
  function Without(d: seq<int>, k: int): (r: seq<int>)
    ensures |r| <= |d|
    ensures k in d ==> |r| < |d|
  {
    if |d| == 0 then []
    else (if d[0] == k then [] else [d[0]]) + Without(d[1..], k)
  }

  lemma {:induction false} WithoutCounts(d: seq<int>, k: int)
    ensures multiset(Without(d, k)) == multiset(d)[k := 0]
  {
    if |d| > 0 {
      assert d == [d[0]] + d[1..];
      WithoutCounts(d[1..], k);
    }
  }

  lemma {:induction false} WithoutMembers(d: seq<int>, k: int)
    ensures forall j :: j in Without(d, k) <==> j in d && j != k
  {
    if |d| > 0 {
      WithoutMembers(d[1..], k);
      WithoutCons(d[0], d[1..], k);
      assert d == [d[0]] + d[1..];
    }
  }

  lemma {:induction false} WithoutCommutes(d: seq<int>, j: int, k: int)
    ensures Without(Without(d, j), k) == Without(Without(d, k), j)
    decreases |d|
  {
    if |d| > 0 {
      var x, t := d[0], d[1..];
      WithoutCons(x, t, j);
      WithoutCons(x, t, k);
      WithoutCommutes(t, j, k);
      if x != j {
        WithoutCons(x, Without(t, j), k);
      }
      if x != k {
        WithoutCons(x, Without(t, k), j);
      }
    }
  }

  lemma WithoutCons(x: int, t: seq<int>, k: int)
    ensures Without([x] + t, k) == if x == k then Without(t, k) else [x] + Without(t, k)
  {
    assert ([x] + t)[0] == x;
    assert ([x] + t)[1..] == t;
  }

  // ---------------------------------------------------------------------
  // score (farkle.py:112-122)
  // ---------------------------------------------------------------------

  /** `len(list(g))`: how many dice of `d` show face `k`. */
  function GroupSize(d: seq<int>, k: int): nat {
    if |d| == 0 then 0 else (if d[0] == k then 1 else 0) + GroupSize(d[1..], k)
  }

  lemma {:induction false} GroupSizeIsCount(d: seq<int>, k: int)
    ensures GroupSize(d, k) == Count(Roll(d), k)
  {
    if |d| > 0 {
      assert d == [d[0]] + d[1..];
      GroupSizeIsCount(d[1..], k);
    }
  }

  /** Sum of FaceScore over the face groups of the roll. The first die's
      group is scored first and removed, which visits every distinct face
      once, as the sorted `groupby` of the source does. */
  function Score(r: Roll): (s: int)
    ensures |r.dice| == 0 ==> s == 0
    decreases |r.dice|
  {
    if |r.dice| == 0 then 0
    else
      var k := r.dice[0];
      FaceScore(k, GroupSize(r.dice, k)) + Score(Roll(Without(r.dice, k)))
  }

  lemma NoDiceNoPoints(k: int)
    ensures FaceScore(k, 0) == 0
  {
    assert 0 / 3 == 0 && 0 % 3 == 0;
  }

  /** Any face group may be scored first: the score is the group's points
      plus the score of the rest. */
  lemma {:induction false} ScoreSplit(r: Roll, k: int)
    ensures Score(r) == FaceScore(k, Count(r, k)) + Score(Roll(Without(r.dice, k)))
    decreases |r.dice|
  {
    if |r.dice| > 0 {
      GroupSizeIsCount(r.dice, r.dice[0]);
    }
    if |r.dice| == 0 {
    } else if k !in r.dice {
      WithoutAbsent(r.dice, k);
      assert Count(r, k) == 0 by { assert k !in multiset(r.dice); }
      NoDiceNoPoints(k);
    } else if r.dice[0] != k {
      var j := r.dice[0];
      var rj := Roll(Without(r.dice, j));
      var rk := Roll(Without(r.dice, k));
      var rest := Roll(Without(rj.dice, k));
      WithoutCounts(r.dice, j);
      WithoutCounts(r.dice, k);
      ScoreSplit(rj, k);
      ScoreSplit(rk, j);
      WithoutCommutes(r.dice, j, k);
      assert Count(rj, k) == Count(r, k);
      assert Count(rk, j) == Count(r, j);
      var sj, sk := FaceScore(j, Count(r, j)), FaceScore(k, Count(r, k));
      calc {
        Score(r);
        sj + Score(rj);
        sj + (sk + Score(rest));
        sk + (sj + Score(rest));
        sk + Score(rk);
      }
    }
  }

  lemma {:induction false} WithoutAbsent(d: seq<int>, k: int)
    requires k !in d
    ensures Without(d, k) == d
  {
    if |d| > 0 {
      assert d == [d[0]] + d[1..];
      WithoutAbsent(d[1..], k);
    }
  }

  /** Two rolls whose face groups are worth the same, face by face, have the
      same score, whatever their order or their dead-weight dice. */
  lemma {:induction false} ScoreByFaceGroups(a: Roll, b: Roll)
    requires forall k :: FaceScore(k, Count(a, k)) == FaceScore(k, Count(b, k))
    ensures Score(a) == Score(b)
    decreases |a.dice| + |b.dice|
  {
    if |a.dice| > 0 || |b.dice| > 0 {
      var k := if |a.dice| > 0 then a.dice[0] else b.dice[0];
      ScoreSplit(a, k);
      ScoreSplit(b, k);
      var a' := Roll(Without(a.dice, k));
      var b' := Roll(Without(b.dice, k));
      WithoutCounts(a.dice, k);
      WithoutCounts(b.dice, k);
      forall j ensures FaceScore(j, Count(a', j)) == FaceScore(j, Count(b', j)) {
        if j != k {
          assert Count(a', j) == Count(a, j) && Count(b', j) == Count(b, j);
          assert FaceScore(j, Count(a, j)) == FaceScore(j, Count(b, j));
        }
      }
      ScoreByFaceGroups(a', b');
    }
  }

  /** The score depends only on the multiset of faces, not on their order. */
  lemma ScoreIgnoresOrder(a: Roll, b: Roll)
    requires multiset(a.dice) == multiset(b.dice)
    ensures Score(a) == Score(b)
  {
    ScoreByFaceGroups(a, b);
  }

  /** The rule table summed over the six faces of a real die. */
  function TableScore(r: Roll): int {
    FaceScore(1, Count(r, 1)) + FaceScore(2, Count(r, 2)) + FaceScore(3, Count(r, 3)) +
    FaceScore(4, Count(r, 4)) + FaceScore(5, Count(r, 5)) + FaceScore(6, Count(r, 6))
  }

  /** For real dice the score is the six-entry rule table: triples of ones
      are 1000, single ones 100, triples of fives 500, single fives 50, and a
      triple of any other face is 100 times the face. */
  lemma {:induction false} ScoreTable(r: Roll)
    requires ValidFaces(r)
    ensures Score(r) == TableScore(r)
    decreases |r.dice|
  {
    if |r.dice| > 0 {
      var k := r.dice[0];
      var rest := Roll(Without(r.dice, k));
      WithoutCounts(r.dice, k);
      ScoreSplit(r, k);
      WithoutIsFair(r, k);
      ScoreTable(rest);
      TableScoreDrop(r, rest, k);
    }
  }

  lemma WithoutIsFair(r: Roll, k: int)
    requires ValidFaces(r)
    ensures ValidFaces(Roll(Without(r.dice, k)))
  {
    var rest := Roll(Without(r.dice, k));
    WithoutMembers(r.dice, k);
    forall i | 0 <= i < |rest.dice| ensures 1 <= rest.dice[i] <= DIE_SIZE {
      assert rest.dice[i] in rest.dice;
      var j :| 0 <= j < |r.dice| && r.dice[j] == rest.dice[i];
    }
  }

  lemma TableScoreDrop(r: Roll, rest: Roll, k: int)
    requires 1 <= k <= DIE_SIZE
    requires multiset(rest.dice) == multiset(r.dice)[k := 0]
    ensures TableScore(r) == FaceScore(k, Count(r, k)) + TableScore(rest)
  {
    var c := Count(r, k);
    NoDiceNoPoints(k);
    assert Count(rest, k) == 0;
    if k != 1 { assert Count(rest, 1) == Count(r, 1); }
    if k != 2 { assert Count(rest, 2) == Count(r, 2); }
    if k != 3 { assert Count(rest, 3) == Count(r, 3); }
    if k != 4 { assert Count(rest, 4) == Count(r, 4); }
    if k != 5 { assert Count(rest, 5) == Count(r, 5); }
    if k != 6 { assert Count(rest, 6) == Count(r, 6); }
  }

  /** Scores of groups of positive faces are never negative. */
  lemma {:induction false} ScoreNonNegative(r: Roll)
    requires forall i :: 0 <= i < |r.dice| ==> r.dice[i] >= 1
    ensures Score(r) >= 0
    decreases |r.dice|
  {
    if |r.dice| > 0 {
      var rest := Roll(Without(r.dice, r.dice[0]));
      WithoutMembers(r.dice, r.dice[0]);
      forall i | 0 <= i < |rest.dice| ensures rest.dice[i] >= 1 {
        assert rest.dice[i] in rest.dice;
      }
      ScoreNonNegative(rest);
    }
  }

  lemma FaceScoreZero(k: int, c: nat)
    requires 1 <= k <= DIE_SIZE
    ensures FaceScore(k, c) >= 0
    ensures FaceScore(k, c) == 0 <==> if k == 1 || k == 5 then c == 0 else c < 3
  {
  }

  /** Farkle detection: a roll of real dice scores nothing exactly when it
      holds no 1, no 5 and no face three or more times. */
  lemma ScoreZeroIff(r: Roll)
    requires ValidFaces(r)
    ensures Score(r) == 0 <==>
      Count(r, 1) == 0 && Count(r, 5) == 0 && forall k :: Count(r, k) < 3
  {
    ScoreTable(r);
    TableZeroIff(r);
  }

  lemma TableZeroIff(r: Roll)
    requires ValidFaces(r)
    ensures TableScore(r) == 0 <==>
      Count(r, 1) == 0 && Count(r, 5) == 0 && forall k :: Count(r, k) < 3
  {
    FaceScoreZero(1, Count(r, 1));
    FaceScoreZero(2, Count(r, 2));
    FaceScoreZero(3, Count(r, 3));
    FaceScoreZero(4, Count(r, 4));
    FaceScoreZero(5, Count(r, 5));
    FaceScoreZero(6, Count(r, 6));
    forall k | !(1 <= k <= DIE_SIZE) ensures Count(r, k) == 0 {
      assert k !in r.dice;
    }
  }

  // ---------------------------------------------------------------------
  // isSubsetOf (farkle.py:94-102)
  // ---------------------------------------------------------------------

  /** Walks this roll's dice, striking each one off a copy of `other`; fails
      as soon as a die has no partner left. */
  function IsSubsetOf(r: Roll, other: Roll): (b: bool)
    ensures b <==> multiset(r.dice) <= multiset(other.dice)
    decreases |r.dice|
  {
    if |r.dice| == 0 then true
    else
      var d := r.dice[0];
      assert r.dice == [d] + r.dice[1..];
      if d !in other.dice then
        assert multiset(r.dice)[d] > multiset(other.dice)[d];
        false
      else
        IsSubsetOf(Roll(r.dice[1..]), Roll(RemoveFirst(other.dice, d)))
  }

  // ---------------------------------------------------------------------
  // trim (farkle.py:104-110)
  // ---------------------------------------------------------------------

  /** `c` is the largest multiple of three not above `total`. */
  predicate WholeTriplesOf(c: nat, total: nat) {
    c % 3 == 0 && c <= total < c + 3
  }

  /** `while newDice.count(n) % 3: newDice.remove(n)` */
  function TrimFace(d: seq<int>, n: int): (r: seq<int>)
    ensures WholeTriplesOf(multiset(r)[n], multiset(d)[n])
    ensures multiset(r) == multiset(d)[n := multiset(r)[n]]
    ensures multiset(r) <= multiset(d)
    decreases multiset(d)[n]
  {
    if multiset(d)[n] % 3 != 0 then
      assert n in d by { assert n in multiset(d); }
      var fewer := RemoveFirst(d, n);
      var r := TrimFace(fewer, n);
      TrimFaceStep(multiset(d), multiset(fewer), multiset(r), n);
      r
    else d
  }

  /** Removing one die of face `n` from a group that is not whole triples
      leaves the same whole triples to cut down to. */
  lemma TrimFaceStep(d: multiset<int>, fewer: multiset<int>, r: multiset<int>, n: int)
    requires d[n] % 3 != 0 && d[n] > 0 && fewer == d[n := d[n] - 1]
    requires WholeTriplesOf(r[n], fewer[n]) && r == fewer[n := r[n]]
    ensures WholeTriplesOf(r[n], d[n]) && r == d[n := r[n]] && r <= d
  {
    assert d[n] != r[n] + 3;
  }

  /** Drops the dead weight: each of the faces 2, 3, 4, 6 is cut to the
      largest multiple of three not above its count; all other dice stay. */
  function Trim(r: Roll): (t: Roll)
    ensures forall k :: Trimmable(k) ==> WholeTriplesOf(Count(t, k), Count(r, k))
    ensures forall k :: !Trimmable(k) ==> Count(t, k) == Count(r, k)
    ensures multiset(t.dice) <= multiset(r.dice)
  {
    TrimFacesCounts(r.dice);
    Roll(TrimFace(TrimFace(TrimFace(TrimFace(r.dice, 2), 3), 4), 6))
  }

  lemma TrimFacesCounts(d: seq<int>)
    ensures var t := TrimFace(TrimFace(TrimFace(TrimFace(d, 2), 3), 4), 6);
      && (forall k :: Trimmable(k) ==> WholeTriplesOf(multiset(t)[k], multiset(d)[k]))
      && (forall k :: !Trimmable(k) ==> multiset(t)[k] == multiset(d)[k])
  {
    var t := TrimFace(TrimFace(TrimFace(TrimFace(d, 2), 3), 4), 6);
    forall k ensures Trimmable(k) ==> WholeTriplesOf(multiset(t)[k], multiset(d)[k])
      ensures !Trimmable(k) ==> multiset(t)[k] == multiset(d)[k]
    {
      TrimFacesCount(d, k);
    }
  }

  /** What the four passes of trim leave of face `k`. */
  lemma TrimFacesCount(d: seq<int>, k: int)
    ensures var t := TrimFace(TrimFace(TrimFace(TrimFace(d, 2), 3), 4), 6);
      && (Trimmable(k) ==> WholeTriplesOf(multiset(t)[k], multiset(d)[k]))
      && (!Trimmable(k) ==> multiset(t)[k] == multiset(d)[k])
  {
    var d2 := TrimFace(d, 2);
    var d3 := TrimFace(d2, 3);
    var d4 := TrimFace(d3, 4);
    var t := TrimFace(d4, 6);
    if k == 2 {
      assert multiset(t)[k] == multiset(d4)[k] == multiset(d3)[k] == multiset(d2)[k];
    } else if k == 3 {
      assert multiset(t)[k] == multiset(d4)[k] == multiset(d3)[k];
      assert multiset(d2)[k] == multiset(d)[k];
    } else if k == 4 {
      assert multiset(t)[k] == multiset(d4)[k];
      assert multiset(d3)[k] == multiset(d2)[k] == multiset(d)[k];
    } else if k == 6 {
      assert multiset(d4)[k] == multiset(d3)[k] == multiset(d2)[k] == multiset(d)[k];
    } else {
      assert multiset(t)[k] == multiset(d4)[k] == multiset(d3)[k] == multiset(d2)[k] == multiset(d)[k];
    }
  }

  /** Trim leaves a roll alone exactly when its faces 2, 3, 4, 6 already
      come in whole triples. */
  lemma TrimFixpoint(r: Roll)
    ensures Trim(r) == r <==> forall k :: Trimmable(k) ==> Count(r, k) % 3 == 0
  {
    if forall k :: Trimmable(k) ==> Count(r, k) % 3 == 0 {
      assert Count(r, 2) % 3 == 0;
      assert TrimFace(r.dice, 2) == r.dice;
      assert Count(r, 3) % 3 == 0;
      assert TrimFace(r.dice, 3) == r.dice;
      assert Count(r, 4) % 3 == 0;
      assert TrimFace(r.dice, 4) == r.dice;
      assert Count(r, 6) % 3 == 0;
      assert TrimFace(r.dice, 6) == r.dice;
    } else {
      var k :| Trimmable(k) && Count(r, k) % 3 != 0;
      assert Count(Trim(r), k) != Count(r, k);
    }
  }

  /** Trimming twice is trimming once. */
  lemma TrimIdempotent(r: Roll)
    ensures Trim(Trim(r)) == Trim(r)
  {
    TrimFixpoint(Trim(r));
  }

  /** Trim removes only dice that score nothing. */
  lemma TrimKeepsScore(r: Roll)
    ensures Score(Trim(r)) == Score(r)
  {
    TrimKeepsFaceScores(r);
    ScoreByFaceGroups(Trim(r), r);
  }

  lemma TrimKeepsFaceScores(r: Roll)
    ensures forall k :: FaceScore(k, Count(Trim(r), k)) == FaceScore(k, Count(r, k))
  {
    var t := Trim(r);
    forall k ensures FaceScore(k, Count(t, k)) == FaceScore(k, Count(r, k)) {
      if Trimmable(k) {
        TriplesKeepScore(k, Count(t, k), Count(r, k));
      }
    }
  }

  /** Cutting a group of a face other than 1 or 5 down to its whole triples
      keeps its points. */
  lemma TriplesKeepScore(k: int, c: nat, total: nat)
    requires k != 1 && k != 5 && WholeTriplesOf(c, total)
    ensures FaceScore(k, c) == FaceScore(k, total)
  {
    assert c / 3 == total / 3;
  }

  // ---------------------------------------------------------------------
  // isTrimmed (farkle.py:124-131)
  // ---------------------------------------------------------------------

  /** The group of face `k` contributes in full: ones and fives always do,
      other faces in whole triples. */
  predicate GroupCounts(r: Roll, k: int) {
    k == 1 || k == 5 || Count(r, k) % 3 == 0
  }

  /** Every die is needed for the score: each face group is of ones, of
      fives, or a whole number of triples. */
  function IsTrimmed(r: Roll): (b: bool)
    ensures b <==> forall k :: k in r.dice ==> GroupCounts(r, k)
    decreases |r.dice|
  {
    if |r.dice| == 0 then true
    else
      var k := r.dice[0];
      IsTrimmedStep(r, k);
      GroupCounts(r, k) && IsTrimmed(Roll(Without(r.dice, k)))
  }

  /** Checking the group of face `k` and then the other groups checks them
      all. */
  lemma IsTrimmedStep(r: Roll, k: int)
    requires k in r.dice
    ensures var rest := Roll(Without(r.dice, k));
      (forall j :: j in r.dice ==> GroupCounts(r, j)) <==>
      GroupCounts(r, k) && forall j :: j in rest.dice ==> GroupCounts(rest, j)
  {
    var rest := Roll(Without(r.dice, k));
    WithoutCounts(r.dice, k);
    WithoutMembers(r.dice, k);
    forall j | j != k ensures GroupCounts(rest, j) == GroupCounts(r, j) {
      assert Count(rest, j) == Count(r, j);
    }
  }

  /** Trimming makes a roll trimmed exactly when no die outside 1..6 is left
      in an incomplete group (trim never touches such faces). */
  lemma TrimIsTrimmedIff(r: Roll)
    ensures IsTrimmed(Trim(r)) <==>
      forall k :: k in r.dice && !(1 <= k <= DIE_SIZE) ==> Count(r, k) % 3 == 0
  {
    IsTrimmedMeans(Trim(r));
    if IsTrimmed(Trim(r)) {
      forall k | k in r.dice && !(1 <= k <= DIE_SIZE) ensures Count(r, k) % 3 == 0 {
        TrimGroup(r, k);
        assert !DeadGroup(Trim(r), k);
      }
    } else {
      var k :| DeadGroup(Trim(r), k);
      TrimGroup(r, k);
      assert UntrimmedGroup(r, k);
    }
  }

  /** Face `k` is left in a group of `t` that does not contribute. */
  predicate DeadGroup(t: Roll, k: int) {
    k in t.dice && !GroupCounts(t, k)
  }

  predicate TrimSpoils(r: Roll, k: int) {
    DeadGroup(Trim(r), k)
  }

  lemma IsTrimmedMeans(t: Roll)
    ensures IsTrimmed(t) <==> forall k :: !DeadGroup(t, k)
  {
    if !IsTrimmed(t) {
      var k :| k in t.dice && !GroupCounts(t, k);
      assert DeadGroup(t, k);
    }
  }

  /** Face `k` lies outside the die and is not in whole triples. */
  predicate UntrimmedGroup(r: Roll, k: int) {
    k in r.dice && !(1 <= k <= DIE_SIZE) && Count(r, k) % 3 != 0
  }

  lemma TrimGroup(r: Roll, k: int)
    ensures TrimSpoils(r, k) <==> UntrimmedGroup(r, k)
  {
    var t := Trim(r);
    assert k in t.dice <==> Count(t, k) > 0;
    assert k in r.dice <==> Count(r, k) > 0;
    GroupArith(k, Count(t, k), Count(r, k));
  }

  /** The counting behind TrimGroup: `ct` dice of face `k` left by the trim
      out of `cr`. */
  lemma GroupArith(k: int, ct: nat, cr: nat)
    requires Trimmable(k) ==> WholeTriplesOf(ct, cr)
    requires !Trimmable(k) ==> ct == cr
    ensures (ct > 0 && !(k == 1 || k == 5 || ct % 3 == 0)) <==>
      (cr > 0 && !(1 <= k <= DIE_SIZE) && cr % 3 != 0)
  {
  }

  /** The trimmed roll of real dice is trimmed. */
  lemma TrimIsTrimmed(r: Roll)
    requires ValidFaces(r)
    ensures IsTrimmed(Trim(r))
  {
    TrimIsTrimmedIff(r);
    forall k | k in r.dice ensures 1 <= k <= DIE_SIZE {
      var i :| 0 <= i < |r.dice| && r.dice[i] == k;
    }
  }

  /** A nonempty trimmed roll of real dice always scores. */
  lemma TrimmedScores(r: Roll)
    requires ValidFaces(r) && IsTrimmed(r) && |r.dice| > 0
    ensures Score(r) > 0
  {
    ScoreZeroIff(r);
    ScoreNonNegative(r);
    var k := r.dice[0];
    assert k in multiset(r.dice);
  }

}
