/** Guesser scores and the drawer's bonus (backend/game_engine.py:209-258) over exact reals,
    with Python's `round`, which sends a tie to the even neighbour. */
module Scoring {

  const FLOOR_SCORE := 50
  const TOP_BASE := 500

  function Round(x: real): (r: int)
    ensures x - 0.5 <= r as real <= x + 0.5
    ensures (r as real == x - 0.5 || r as real == x + 0.5) ==> r % 2 == 0
  {
    var f := x.Floor;
    var d := x - f as real;
    if d < 0.5 || (d == 0.5 && f % 2 == 0) then f else f + 1
  }

  /* The nearest integer, the even one of two. */
  predicate NearestEven(x: real, r: int) {
    && x - 0.5 <= r as real <= x + 0.5
    && ((r as real == x - 0.5 || r as real == x + 0.5) ==> r % 2 == 0)
  }

  /* Within half a unit and even on ties determines the integer. */
  lemma RoundUnique(x: real, r: int)
    requires NearestEven(x, r)
    ensures r == Round(x)
  {
    var s := Round(x);
    assert -1.0 <= (r - s) as real <= 1.0;
    assert -1 <= r - s <= 1;
  }

  lemma RoundMonotone(x: real, y: real)
    requires x <= y
    ensures Round(x) <= Round(y)
  {
  }

  lemma RoundInteger(n: int)
    ensures Round(n as real) == n
  {
    RoundUnique(n as real, n);
  }

  function Ratio(elapsed: real, duration: real): (r: real)
    requires duration > 0.0
    ensures 0.0 <= r <= 1.0
  {
    var q := elapsed / duration;
    if q < 0.0 then 0.0 else if q > 1.0 then 1.0 else q
  }

  function Square(x: real): real { x * x }

  function BaseScore(elapsed: real, duration: real): int
    requires duration > 0.0
  {
    var b := Round(500.0 * Square(1.0 - Ratio(elapsed, duration)));
    if b < FLOOR_SCORE then FLOOR_SCORE else b
  }

  function Multiplier(position: int): real {
    if position == 1 then 1.5 else if position == 2 then 1.2 else if position == 3 then 1.0 else 0.9
  }

  function GuesserScore(elapsed: real, duration: real, position: int): int
    requires duration > 0.0
  {
    Round(BaseScore(elapsed, duration) as real * Multiplier(position))
  }

  /* The square of the share of time left, without the ratio. */
  lemma TimeLeftSquared(elapsed: real, duration: real)
    requires duration > 0.0 && 0.0 <= elapsed <= duration
    ensures duration * duration > 0.0
    ensures 500.0 * Square(1.0 - Ratio(elapsed, duration))
            == 500.0 * ((duration - elapsed) * (duration - elapsed)) / (duration * duration)
  {
    var q := elapsed / duration;
    var dd := PositiveSquare(duration);
    assert q * duration == elapsed;
    QuotientInRange(elapsed, duration, q);
    LeftScaled(elapsed, duration, q);
    QuotientOfScaled(500.0 * ((1.0 - q) * (1.0 - q)), dd);
  }

  lemma PositiveSquare(d: real) returns (dd: real)
    requires d > 0.0
    ensures dd > 0.0 && dd == d * d
  {
    dd := d * d;
    ProductPositive(d, d, dd);
  }

  lemma ProductPositive(x: real, y: real, z: real)
    requires x > 0.0 && y > 0.0 && z == x * y
    ensures z > 0.0
  {
  }

  lemma QuotientInRange(e: real, d: real, q: real)
    requires d > 0.0 && 0.0 <= e <= d && q * d == e
    ensures 0.0 <= q <= 1.0
  {
    assert q < 0.0 ==> q * d < 0.0;
    assert q > 1.0 ==> (q - 1.0) * d > 0.0;
  }

  lemma LeftScaled(e: real, d: real, q: real)
    requires d > 0.0 && q * d == e
    ensures 500.0 * ((d - e) * (d - e)) == (500.0 * ((1.0 - q) * (1.0 - q))) * (d * d)
  {
    var l := 1.0 - q;
    assert d - e == l * d;
    assert (l * d) * (l * d) == (l * l) * (d * d);
  }

  lemma QuotientOfScaled(x: real, d: real)
    requires d > 0.0
    ensures x * d / d == x
  {
  }

  /* What a guess earns: the base is the nearest integer to 500 times the squared share of time left,
     at least 50; the score is the nearest integer to 3/2, 6/5, 1 or 9/10 of it for the first, second,
     third and every other place. */
  lemma ScoreExactly(elapsed: real, duration: real, position: int) returns (nearest: int)
    requires duration > 0.0 && 0.0 <= elapsed <= duration
    ensures duration * duration > 0.0
    ensures NearestEven(500.0 * ((duration - elapsed) * (duration - elapsed)) / (duration * duration), nearest)
    ensures var base := if nearest < 50 then 50 else nearest;
            var score := GuesserScore(elapsed, duration, position);
            && (position == 1 ==> NearestEven(base as real * 1.5, score))
            && (position == 2 ==> NearestEven(base as real * 1.2, score))
            && (position == 3 ==> NearestEven(base as real, score))
            && (position < 1 || position > 3 ==> NearestEven(base as real * 0.9, score))
  {
    TimeLeftSquared(elapsed, duration);
    nearest := Round(500.0 * Square(1.0 - Ratio(elapsed, duration)));
  }

  /* Outside the turn the clock stands still. */
  lemma ScoreOutside(elapsed: real, duration: real, position: int)
    requires duration > 0.0
    ensures elapsed < 0.0 ==> GuesserScore(elapsed, duration, position) == GuesserScore(0.0, duration, position)
    ensures elapsed > duration ==>
              GuesserScore(elapsed, duration, position) == GuesserScore(duration, duration, position)
  {
    if elapsed < 0.0 {
      RatioMonotone(elapsed, 0.0, duration);
    } else if elapsed > duration {
      RatioMonotone(duration, elapsed, duration);
      assert duration / duration == 1.0;
    }
  }

  lemma SquareMonotone(x: real, y: real)
    requires 0.0 <= x <= y
    ensures 0.0 <= Square(x) <= Square(y)
  {
    assert x * x <= x * y <= y * y;
  }

  lemma RatioMonotone(e1: real, e2: real, duration: real)
    requires duration > 0.0 && e1 <= e2
    ensures Ratio(e1, duration) <= Ratio(e2, duration)
  {
    assert e2 / duration - e1 / duration == (e2 - e1) / duration >= 0.0;
  }

  lemma BaseScoreRange(elapsed: real, duration: real)
    requires duration > 0.0
    ensures FLOOR_SCORE <= BaseScore(elapsed, duration) <= TOP_BASE
  {
    SquareMonotone(1.0 - Ratio(elapsed, duration), 1.0);
    RoundMonotone(500.0 * Square(1.0 - Ratio(elapsed, duration)), 500.0);
    RoundInteger(500);
  }

  lemma BaseScoreDecays(e1: real, e2: real, duration: real)
    requires duration > 0.0 && e1 <= e2
    ensures BaseScore(e2, duration) <= BaseScore(e1, duration)
  {
    RatioMonotone(e1, e2, duration);
    SquareMonotone(1.0 - Ratio(e2, duration), 1.0 - Ratio(e1, duration));
    RoundMonotone(500.0 * Square(1.0 - Ratio(e2, duration)), 500.0 * Square(1.0 - Ratio(e1, duration)));
  }

  lemma ProductMonotone(a: int, b: int, m: real, n: real)
    requires 0 <= a <= b && 0.0 <= m <= n
    ensures a as real * m <= b as real * n
  {
    assert a as real * m <= b as real * m <= b as real * n;
  }

  /* An earlier and better placed guess never earns less. */
  lemma ScoreMonotone(e1: real, e2: real, duration: real, p: int, q: int)
    requires duration > 0.0 && e1 <= e2 && 1 <= p <= q
    ensures GuesserScore(e2, duration, q) <= GuesserScore(e1, duration, p)
  {
    BaseScoreRange(e2, duration);
    BaseScoreDecays(e1, e2, duration);
    ProductMonotone(BaseScore(e2, duration), BaseScore(e1, duration), Multiplier(q), Multiplier(p));
    RoundMonotone(BaseScore(e2, duration) as real * Multiplier(q), BaseScore(e1, duration) as real * Multiplier(p));
  }

  lemma ScoreRange(elapsed: real, duration: real, position: int)
    requires duration > 0.0
    ensures 45 <= GuesserScore(elapsed, duration, position) <= 750
  {
    var b := BaseScore(elapsed, duration);
    BaseScoreRange(elapsed, duration);
    ProductMonotone(50, b, 0.9, Multiplier(position));
    ProductMonotone(b, 500, Multiplier(position), 1.5);
    assert 50 as real * 0.9 == 45 as real && 500 as real * 1.5 == 750 as real;
    RoundMonotone(45 as real, b as real * Multiplier(position));
    RoundMonotone(b as real * Multiplier(position), 750 as real);
    RoundInteger(45);
    RoundInteger(750);
  }

  /* Both ends of the range are taken. */
  lemma ScoreRangeTight(duration: real)
    requires duration > 0.0
    ensures GuesserScore(0.0, duration, 1) == 750
    ensures forall p :: p > 3 ==> GuesserScore(duration, duration, p) == 45
  {
    assert Ratio(0.0, duration) == 0.0 && Ratio(duration, duration) == 1.0;
    RoundInteger(500);
    RoundInteger(0);
    assert 500 as real * 1.5 == 750 as real;
    RoundInteger(750);
    assert 50 as real * 0.9 == 45 as real;
    RoundInteger(45);
  }

  /* A single score reaches the documented minimum of 50 exactly in the first three places or from a
     base score of 55 on, whose nine tenths tie and round up to the even 50. */
  lemma FiftyReachedExactly(elapsed: real, duration: real, position: int)
    requires duration > 0.0
    ensures GuesserScore(elapsed, duration, position) >= 50
            <==> 1 <= position <= 3 || BaseScore(elapsed, duration) >= 55
  {
    var b := BaseScore(elapsed, duration);
    BaseScoreRange(elapsed, duration);
    if 1 <= position <= 3 {
      ProductMonotone(50, b, 1.0, Multiplier(position));
      RoundMonotone(50 as real, b as real * Multiplier(position));
      RoundInteger(50);
    } else if b >= 55 {
      ProductMonotone(55, b, 0.9, 0.9);
      RoundMonotone(55 as real * 0.9, b as real * 0.9);
      RoundUnique(55 as real * 0.9, 50);
    } else {
      ProductMonotone(b, 54, 0.9, 0.9);
      RoundMonotone(b as real * 0.9, 54 as real * 0.9);
      RoundUnique(54 as real * 0.9, 49);
    }
  }

  /* The documented minimum of 50 holds for the first three places and for no other. */
  lemma MinimumFiftyExactly(position: int)
    ensures (forall e, d | d > 0.0 :: GuesserScore(e, d, position) >= 50) <==> 1 <= position <= 3
  {
    if 1 <= position <= 3 {
      forall e, d | d > 0.0
        ensures GuesserScore(e, d, position) >= 50
      {
        FiftyReachedExactly(e, d, position);
      }
    } else {
      assert Ratio(1.0, 1.0) == 1.0;
      RoundInteger(0);
      assert 50 as real * 0.9 == 45 as real;
      RoundInteger(45);
      assert GuesserScore(1.0, 1.0, position) == 45;
    }
  }

  function Sum(scores: seq<int>): int {
    if scores == [] then 0 else Sum(scores[..|scores| - 1]) + scores[|scores| - 1]
  }

  function DrawerBonus(scores: seq<int>): int {
    if scores == [] then 0 else Round(Sum(scores) as real / |scores| as real)
  }

  lemma {:induction false} SumBounds(scores: seq<int>, lo: int, hi: int)
    requires forall i :: 0 <= i < |scores| ==> lo <= scores[i] <= hi
    ensures lo * |scores| <= Sum(scores) <= hi * |scores|
  {
    if scores != [] {
      SumBounds(scores[..|scores| - 1], lo, hi);
    }
  }

  lemma DivBounds(sum: int, n: int, lo: int, hi: int)
    requires n > 0 && lo * n <= sum <= hi * n
    ensures lo as real <= sum as real / n as real <= hi as real
  {
    var q := sum as real / n as real;
    assert q * n as real == sum as real;
    assert (lo * n) as real == lo as real * n as real && (hi * n) as real == hi as real * n as real;
  }

  lemma {:induction false} SumConcat(a: seq<int>, b: seq<int>)
    ensures Sum([]) == 0 && Sum(a + b) == Sum(a) + Sum(b)
    ensures |b| == 1 ==> Sum(b) == b[0]
    decreases |b|
  {
    if b == [] {
      assert a + b == a;
    } else {
      var n := |b| - 1;
      SumConcat(a, b[..n]);
      assert (a + b)[..|a| + n] == a + b[..n];
    }
  }

  /* The bonus is the nearest integer to the average, and nothing without guessers. */
  lemma DrawerBonusExactly(scores: seq<int>)
    ensures scores == [] ==> DrawerBonus(scores) == 0
    ensures scores != [] ==> NearestEven(Sum(scores) as real / |scores| as real, DrawerBonus(scores))
  {
  }

  /* The bonus lies between any bounds on the guessers' scores, so between the smallest and the largest. */
  lemma DrawerBonusBounds(scores: seq<int>, lo: int, hi: int)
    requires scores != []
    requires forall i :: 0 <= i < |scores| ==> lo <= scores[i] <= hi
    ensures lo <= DrawerBonus(scores) <= hi
  {
    SumBounds(scores, lo, hi);
    DivBounds(Sum(scores), |scores|, lo, hi);
    var avg := Sum(scores) as real / |scores| as real;
    RoundMonotone(lo as real, avg);
    RoundMonotone(avg, hi as real);
    RoundInteger(lo);
    RoundInteger(hi);
  }
}
