/**
  The game loop of farkle.py (`Game.play` and `Game.award`, lines 159-177
  and 210-211): players take turns in order, each turn's points are added
  to the player's total, and once somebody ends a turn above the goal every
  player, that one included, gets one more turn counted before the game
  stops and the players are ranked by score.

  The turns themselves are given as the sequence of their awards, in the
  order they are played; the endless `itertools.cycle` loop stops when that
  sequence runs out.
 */
module Game {

  /** Points to pass to start the end of the game (GOAL). */
  const GOAL: int := 10000

  /** `self.scores`: a total per player name. */
  type Scores = map<string, int>

  /** Every player starts at zero. Players with the same name share one
      total, as they share one dictionary entry. */
  function InitialScores(names: seq<string>): (s: Scores)
    ensures forall n :: n in s <==> n in names
    ensures forall n :: n in s ==> s[n] == 0
  {
    map n | n in names :: 0
  }

  /** `award`: adds a turn's points to one player's total. */
  function Award(scores: Scores, name: string, points: int): (s: Scores)
    requires name in scores
    ensures s.Keys == scores.Keys
    ensures s[name] == scores[name] + points
    ensures forall n :: n in scores && n != name ==> s[n] == scores[n]
  {
    scores[name := scores[name] + points]
  }

  /** The player of the `t`-th turn (counting from 0). */
  function PlayerAt(names: seq<string>, t: nat): (name: string)
    requires |names| > 0
    ensures name in names
  {
    names[t % |names|]
  }

  /** `itertools.cycle` seats the players in order, and after the last one
      starts again from the first. */
  lemma PlayerAtCycles(names: seq<string>, t: nat)
    requires |names| > 0
    ensures t < |names| ==> PlayerAt(names, t) == names[t]
    ensures PlayerAt(names, t + |names|) == PlayerAt(names, t)
  {
    var n := |names|;
    var q, r := t / n, t % n;
    assert t + n == (q + 1) * n + r;
    ModUnique(t + n, n, q + 1, r);
  }

  /** The remainder of `x` by `n` is the `r` of any `x == q * n + r`
      with `0 <= r < n`. */
  lemma ModUnique(x: int, n: int, q: int, r: int)
    requires n > 0 && 0 <= r < n && x == q * n + r
    ensures x % n == r
  {
    var q', r' := x / n, x % n;
    assert (q' - q) * n == r - r';
    MultipleBound(q' - q, n);
  }

  /** A nonzero multiple of `n` is at least `n` away from zero. */
  lemma MultipleBound(a: int, n: int)
    requires n > 0
    ensures a >= 1 ==> a * n >= n
    ensures a <= -1 ==> a * n <= -n
  {
    assert a * n - n == (a - 1) * n;
    assert a * n + n == (a + 1) * n;
  }

  /** The totals after the first `t` turns. */
  function ScoresAfter(names: seq<string>, awards: seq<int>, t: nat): (s: Scores)
    requires |names| > 0 && t <= |awards|
    ensures forall n :: n in s <==> n in names
  {
    if t == 0 then InitialScores(names)
    else Award(ScoresAfter(names, awards, t - 1), PlayerAt(names, t - 1), awards[t - 1])
  }

  /** Turn `t` leaves its player strictly above the goal. */
  predicate Crossed(names: seq<string>, awards: seq<int>, t: nat)
    requires |names| > 0 && t < |awards|
  {
    ScoresAfter(names, awards, t + 1)[PlayerAt(names, t)] > GOAL
  }

  /** Turn `c` is the first to leave its player above the goal. */
  predicate FirstCrossing(names: seq<string>, awards: seq<int>, c: nat)
    requires |names| > 0 && c < |awards|
  {
    Crossed(names, awards, c) && forall u :: 0 <= u < c ==> !Crossed(names, awards, u)
  }

  /** The end-game counter reaches the number of players after turn
      `turns`: the first crossing was that many turns before. */
  predicate EndsAfter(names: seq<string>, awards: seq<int>, turns: nat) {
    0 < |names| <= turns <= |awards| && FirstCrossing(names, awards, turns - |names|)
  }

  /** No turn crosses the goal early enough for the counter to reach the
      number of players within the turns given. */
  predicate NeverEnds(names: seq<string>, awards: seq<int>)
    requires |names| > 0
  {
    forall c :: 0 <= c && c + |names| <= |awards| ==> !Crossed(names, awards, c)
  }

  // ---------------------------------------------------------------------
  // Ranking: `sorted(self.plyrs, key=lambda p: -score)`
  // ---------------------------------------------------------------------

  /** Player `a` is listed before player `b`: a higher total, or the same
      total and an earlier seat (Python's sort is stable). */
  predicate Precedes(key: seq<int>, a: nat, b: nat)
    requires a < |key| && b < |key|
  {
    key[a] > key[b] || (key[a] == key[b] && a < b)
  }

  predicate InRange(order: seq<nat>, n: nat) {
    forall i :: 0 <= i < |order| ==> order[i] < n
  }

  /** Every seat is listed before every seat after it. */
  predicate SortedBy(order: seq<nat>, key: seq<int>)
    requires InRange(order, |key|)
  {
    forall i, j :: 0 <= i < j < |order| ==> Precedes(key, order[i], order[j])
  }

  /** The seats `0 .. n-1`, each once. */
  function Seats(n: nat): (s: seq<nat>)
    ensures |s| == n
  {
    if n == 0 then [] else Seats(n - 1) + [n - 1]
  }

  /** Places seat `x` behind the seats that precede it. */
  function Insert(x: nat, order: seq<nat>, key: seq<int>): (r: seq<nat>)
    requires x < |key| && InRange(order, |key|)
    ensures InRange(r, |key|)
    ensures multiset(r) == multiset(order) + multiset{x}
  {
    if |order| == 0 then [x]
    else if Precedes(key, x, order[0]) then [x] + order
    else
      assert order == [order[0]] + order[1..];
      [order[0]] + Insert(x, order[1..], key)
  }

  lemma {:induction false} InsertSorted(x: nat, order: seq<nat>, key: seq<int>)
    requires x < |key| && InRange(order, |key|) && SortedBy(order, key) && x !in order
    ensures SortedBy(Insert(x, order, key), key)
  {
    if |order| > 0 && !Precedes(key, x, order[0]) {
      var rest := Insert(x, order[1..], key);
      assert x !in order[1..];
      InsertSorted(x, order[1..], key);
      forall j | 0 <= j < |rest| ensures Precedes(key, order[0], rest[j]) {
        InsertFrom(x, order[1..], key, rest[j]);
        if rest[j] != x {
          var k :| 0 <= k < |order[1..]| && order[1..][k] == rest[j];
          assert order[k + 1] == rest[j];
        }
      }
    }
  }

  /** Insertion adds no seat but `x`. */
  lemma InsertFrom(x: nat, order: seq<nat>, key: seq<int>, y: nat)
    requires x < |key| && InRange(order, |key|) && y in Insert(x, order, key)
    ensures y == x || y in order
  {
    assert y in multiset(Insert(x, order, key));
    if y != x {
      assert y in multiset(order);
    }
  }

  /** The first `n` seats in ranking order, by insertion. */
  function SortSeats(n: nat, key: seq<int>): (order: seq<nat>)
    requires n <= |key|
    ensures InRange(order, |key|)
    ensures multiset(order) == multiset(Seats(n))
    ensures SortedBy(order, key)
  {
    if n == 0 then []
    else
      var before := SortSeats(n - 1, key);
      InsertSeat(before, n, key);
      Insert(n - 1, before, key)
  }

  /** One insertion step keeps the listing sorted and lists one seat more. */
  lemma InsertSeat(before: seq<nat>, n: nat, key: seq<int>)
    requires 0 < n <= |key| && InRange(before, |key|)
    requires multiset(before) == multiset(Seats(n - 1)) && SortedBy(before, key)
    ensures multiset(Insert(n - 1, before, key)) == multiset(Seats(n))
    ensures SortedBy(Insert(n - 1, before, key), key)
  {
    NotASeat(before, n - 1);
    InsertSorted(n - 1, before, key);
    SeatsStep(n);
  }

  lemma SeatsStep(n: nat)
    requires 0 < n
    ensures multiset(Seats(n)) == multiset(Seats(n - 1)) + multiset([n - 1])
  {
    assert Seats(n) == Seats(n - 1) + [n - 1];
  }

  /** Seat `n` is not among the first `n` seats. */
  lemma NotASeat(order: seq<nat>, n: nat)
    requires multiset(order) == multiset(Seats(n))
    ensures n !in order
  {
    SeatsBelow(n);
    assert n !in multiset(Seats(n));
  }

  lemma {:induction false} SeatsBelow(n: nat)
    ensures forall i :: 0 <= i < n ==> Seats(n)[i] == i
  {
    if n > 0 {
      SeatsBelow(n - 1);
      assert forall i :: 0 <= i < n - 1 ==> Seats(n)[i] == Seats(n - 1)[i];
    }
  }

  /** The totals of the seats, in seat order. */
  function SeatScores(names: seq<string>, scores: Scores): (key: seq<int>)
    requires forall n :: n in names ==> n in scores
    ensures |key| == |names|
    ensures forall i :: 0 <= i < |names| ==> key[i] == scores[names[i]]
  {
    seq(|names|, i requires 0 <= i < |names| => scores[names[i]])
  }

  /** The final listing: every seat once, by descending total, ties in seat
      order. */
  function Rank(names: seq<string>, scores: Scores): (order: seq<nat>)
    requires forall n :: n in names ==> n in scores
    ensures InRange(order, |names|)
    ensures multiset(order) == multiset(Seats(|names|))
    ensures SortedBy(order, SeatScores(names, scores))
  {
    SortSeats(|names|, SeatScores(names, scores))
  }

  /** A listing sorted by `Precedes` is the only one: the ranking does not
      depend on how it is computed. */
  lemma {:induction false} SortedUnique(a: seq<nat>, b: seq<nat>, key: seq<int>)
    requires InRange(a, |key|) && InRange(b, |key|)
    requires SortedBy(a, key) && SortedBy(b, key) && multiset(a) == multiset(b)
    ensures a == b
    decreases |a|
  {
    if |a| > 0 {
      assert |b| == |multiset(b)| == |multiset(a)| == |a|;
      FirstIsLeast(a, b, key);
      FirstIsLeast(b, a, key);
      assert a[0] == b[0];
      TailMultiset(a);
      TailMultiset(b);
      SortedUnique(a[1..], b[1..], key);
    }
  }

  lemma TailMultiset(a: seq<nat>)
    requires |a| > 0
    ensures multiset(a[1..]) == multiset(a) - multiset{a[0]}
  {
    assert a == [a[0]] + a[1..];
  }

  /** The head of a sorted listing precedes every other seat listed in a
      listing of the same seats. */
  lemma FirstIsLeast(a: seq<nat>, b: seq<nat>, key: seq<int>)
    requires InRange(a, |key|) && InRange(b, |key|)
    requires SortedBy(a, key) && multiset(a) == multiset(b) && |a| > 0 && |b| > 0
    ensures b[0] == a[0] || Precedes(key, a[0], b[0])
  {
    assert b[0] in multiset(a) by { assert b[0] in multiset(b); }
    var j :| 0 <= j < |a| && a[j] == b[0];
  }

  // ---------------------------------------------------------------------
  // play (farkle.py:159-177)
  // ---------------------------------------------------------------------

  /** How a game ends: there was nobody to play, the end-game counter
      reached the number of players after `turns` turns, or the turns ran
      out first. */
  datatype GameResult =
    | NoPlayers
    | Complete(turns: nat, scores: Scores, ranking: seq<nat>)
    | Undecided(scores: Scores)

  /** `endgameCounter` after the first `t` turns: it starts with the first
      turn that leaves its player above the goal and counts every turn from
      there on. */
  function EndgameCounter(names: seq<string>, awards: seq<int>, t: nat): (counter: nat)
    requires |names| > 0 && t <= |awards|
    ensures counter <= t
  {
    if t == 0 then 0
    else
      var before := EndgameCounter(names, awards, t - 1);
      if Crossed(names, awards, t - 1) || before > 0 then before + 1 else before
  }

  /** The end-game counter after turn `t` counts the turns since the first
      crossing, that one included, and is zero before any crossing. */
  predicate CounterMeans(names: seq<string>, awards: seq<int>, t: nat, counter: nat)
    requires |names| > 0 && t <= |awards|
  {
    && counter <= t
    && (counter == 0 ==> forall u :: 0 <= u < t ==> !Crossed(names, awards, u))
    && (counter > 0 ==> FirstCrossing(names, awards, t - counter))
  }

  lemma {:induction false} EndgameCounterMeans(names: seq<string>, awards: seq<int>, t: nat)
    requires |names| > 0 && t <= |awards|
    ensures CounterMeans(names, awards, t, EndgameCounter(names, awards, t))
  {
    if t > 0 {
      EndgameCounterMeans(names, awards, t - 1);
      var before := EndgameCounter(names, awards, t - 1);
      if before > 0 {
        CounterRuns(names, awards, t, before);
      } else {
        CounterIdle(names, awards, t);
      }
    }
  }

  /** A running counter keeps pointing at the same first crossing. */
  lemma CounterRuns(names: seq<string>, awards: seq<int>, t: nat, before: nat)
    requires |names| > 0 && 0 < t <= |awards| && before > 0
    requires before == EndgameCounter(names, awards, t - 1)
    requires CounterMeans(names, awards, t - 1, before)
    ensures CounterMeans(names, awards, t, EndgameCounter(names, awards, t))
  {
    var c := t - 1 - before;
    assert FirstCrossing(names, awards, c);
    assert EndgameCounter(names, awards, t) == before + 1;
    assert t - (before + 1) == c;
  }

  /** An idle counter starts exactly at the first crossing. */
  lemma CounterIdle(names: seq<string>, awards: seq<int>, t: nat)
    requires |names| > 0 && 0 < t <= |awards|
    requires EndgameCounter(names, awards, t - 1) == 0
    requires CounterMeans(names, awards, t - 1, 0)
    ensures CounterMeans(names, awards, t, EndgameCounter(names, awards, t))
  {
    if Crossed(names, awards, t - 1) {
      assert EndgameCounter(names, awards, t) == 1;
      assert FirstCrossing(names, awards, t - 1);
    } else {
      assert EndgameCounter(names, awards, t) == 0;
    }
  }

  /** The counter reaches the number of players exactly when the first
      crossing lies that many turns back. */
  lemma CounterReached(names: seq<string>, awards: seq<int>, t: nat)
    requires |names| > 0 && 0 < t <= |awards|
    ensures EndgameCounter(names, awards, t - 1) < |names| <= EndgameCounter(names, awards, t)
      <==> EndsAfter(names, awards, t)
  {
    if EndgameCounter(names, awards, t - 1) < |names| <= EndgameCounter(names, awards, t) {
      CounterReachedEnds(names, awards, t);
    }
    if EndsAfter(names, awards, t) {
      EndsReachCounter(names, awards, t);
    }
  }

  lemma CounterReachedEnds(names: seq<string>, awards: seq<int>, t: nat)
    requires |names| > 0 && 0 < t <= |awards|
    requires EndgameCounter(names, awards, t - 1) < |names| <= EndgameCounter(names, awards, t)
    ensures EndsAfter(names, awards, t)
  {
    EndgameCounterMeans(names, awards, t);
    var c := t - EndgameCounter(names, awards, t);
    assert FirstCrossing(names, awards, c);
  }

  lemma EndsReachCounter(names: seq<string>, awards: seq<int>, t: nat)
    requires |names| > 0 && 0 < t <= |awards|
    requires EndsAfter(names, awards, t)
    ensures EndgameCounter(names, awards, t - 1) < |names| <= EndgameCounter(names, awards, t)
  {
    var c := t - |names|;
    CounterSinceCrossing(names, awards, t, c);
    CounterSinceCrossing(names, awards, t - 1, c);
  }

  /** After the first crossing at turn `c`, the counter after turn `t`
      is the number of turns from `c` on. */
  lemma CounterSinceCrossing(names: seq<string>, awards: seq<int>, t: nat, c: nat)
    requires |names| > 0 && c <= t <= |awards| && c < |awards|
    requires FirstCrossing(names, awards, c)
    ensures EndgameCounter(names, awards, t) == t - c
  {
    EndgameCounterMeans(names, awards, t);
    CrossingFixesCounter(names, awards, t, c);
  }

  /** Once turn `c` is the first crossing, the counter after turn `t` counts
      the turns from `c` on. */
  lemma CrossingFixesCounter(names: seq<string>, awards: seq<int>, t: nat, c: nat)
    requires |names| > 0 && c <= t <= |awards| && c < |awards|
    requires FirstCrossing(names, awards, c)
    requires CounterMeans(names, awards, t, EndgameCounter(names, awards, t))
    ensures EndgameCounter(names, awards, t) == t - c
  {
    var counter := EndgameCounter(names, awards, t);
    if c < t {
      assert Crossed(names, awards, c);
    }
    if counter > 0 {
      FirstCrossingUnique(names, awards, c, t - counter);
    }
  }

  /** There is at most one first crossing. */
  lemma FirstCrossingUnique(names: seq<string>, awards: seq<int>, c: nat, d: nat)
    requires |names| > 0 && c < |awards| && d < |awards|
    requires FirstCrossing(names, awards, c) && FirstCrossing(names, awards, d)
    ensures c == d
  {
  }

  /** A counter that stays below the number of players means no crossing
      came early enough. */
  lemma CounterBelowPlayers(names: seq<string>, awards: seq<int>)
    requires |names| > 0 && EndgameCounter(names, awards, |awards|) < |names|
    ensures NeverEnds(names, awards)
  {
    EndgameCounterMeans(names, awards, |awards|);
  }

  /** `play` over the awards of its turns. */
  method Play(names: seq<string>, awards: seq<int>) returns (g: GameResult)
    ensures g.NoPlayers? <==> |names| == 0
    ensures g.Complete? ==>
      && EndsAfter(names, awards, g.turns)
      && g.scores == ScoresAfter(names, awards, g.turns)
      && g.ranking == Rank(names, g.scores)
    ensures g.Undecided? ==>
      && g.scores == ScoresAfter(names, awards, |awards|)
      && NeverEnds(names, awards)
  {
    if |names| == 0 {
      return NoPlayers;
    }
    var scores := InitialScores(names);
    var counter := 0;
    var t := 0;
    while t < |awards|
      invariant 0 <= t <= |awards| && counter < |names|
      invariant scores == ScoresAfter(names, awards, t)
      invariant counter == EndgameCounter(names, awards, t)
    {
      var name := PlayerAt(names, t);
      scores := Award(scores, name, awards[t]);
      t := t + 1;
      if scores[name] > GOAL || counter > 0 {
        counter := counter + 1;
      }
      if counter >= |names| {
        CounterReached(names, awards, t);
        return Complete(t, scores, Rank(names, scores));
      }
    }
    CounterBelowPlayers(names, awards);
    return Undecided(scores);
  }

  /** With no negative awards, no total ever goes down. */
  lemma {:induction false} ScoresNeverDecrease(names: seq<string>, awards: seq<int>, t: nat, u: nat, n: string)
    requires |names| > 0 && t <= u <= |awards| && n in names
    requires forall i :: 0 <= i < |awards| ==> awards[i] >= 0
    ensures ScoresAfter(names, awards, t)[n] <= ScoresAfter(names, awards, u)[n]
    decreases u - t
  {
    if t < u {
      ScoresNeverDecrease(names, awards, t, u - 1, n);
    }
  }

  /** A turn changes only its own player's total. */
  lemma OthersUnchanged(names: seq<string>, awards: seq<int>, t: nat, n: string)
    requires |names| > 0 && t < |awards| && n in names && n != PlayerAt(names, t)
    ensures ScoresAfter(names, awards, t + 1)[n] == ScoresAfter(names, awards, t)[n]
  {
  }

}
