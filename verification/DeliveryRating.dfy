/**
  A delivery partner's running average (backend/app/controller/deliveryRatingController.js, lines
  11-86). The stored average has two decimals and is recomputed from itself at every rating.
  Averages are counted in hundredths; `toFixed(2)` may be any rounding to the nearest.
*/
module DeliveryRating {

  type Id = int

  datatype Rating = Rating(customer: Id, order: Id, rider: Id, stars: int)

  datatype Rider = Rider(average: int, total: nat)

  function Abs(x: int): nat {
    if x < 0 then -x else x
  }

  predicate IsNearest(x: int, n: int, d: nat) {
    2 * Abs(d * x - n) <= d
  }

  predicate Stars(r: int) {
    1 <= r <= 5
  }

  /** `b` is the average stored after a rating of `r` on top of average `a` over `n` ratings. */
  predicate Updates(a: int, n: nat, r: int, b: int) {
    IsNearest(b, a * n + 100 * r, n + 1)
  }

  function Sum(rs: seq<int>): int {
    if rs == [] then 0 else Sum(rs[..|rs| - 1]) + rs[|rs| - 1]
  }

  /** `averages[i]` is stored after the first `i` ratings. */
  predicate History(rs: seq<int>, averages: seq<int>) {
    && |averages| == |rs| + 1
    && (forall i :: 0 <= i < |rs| ==> Stars(rs[i]))
    && (forall i :: 0 <= i < |rs| ==> Updates(averages[i], i, rs[i], averages[i + 1]))
  }

  // ---------------------------------------------------------------- drift

  lemma DriftStep(a: int, n: nat, r: int, b: int, sum: int)
    requires Updates(a, n, r, b) && 4 * Abs(n * a - 100 * sum) <= n * (n + 1)
    ensures 4 * Abs((n + 1) * b - 100 * (sum + r)) <= (n + 1) * (n + 2)
  {
    var e := (n + 1) * b - (a * n + 100 * r);
    assert (n + 1) * b - 100 * (sum + r) == e + (n * a - 100 * sum);
    assert (n + 1) * (n + 2) == n * (n + 1) + 2 * (n + 1);
  }

  /** Values further apart than one are at least one denominator apart. */
  lemma Apart(d: nat, x: int, y: int)
    requires x < y
    ensures d * y >= d * x + d
  {
    assert d * y == d * x + d * (y - x);
    assert d * (y - x) == d * (y - x - 1) + d;
    assert d * (y - x - 1) >= 0;
  }

  lemma NearestWithin(x: int, n: int, d: nat, lo: int, hi: int)
    requires d > 0 && IsNearest(x, n, d) && d * lo <= n <= d * hi
    ensures lo <= x <= hi
  {
    if x < lo {
      Apart(d, x, lo);
    } else if x > hi {
      Apart(d, hi, x);
    }
  }

  lemma Scale(n: nat, lo: int, a: int, hi: int)
    requires lo <= a <= hi
    ensures n * lo <= a * n <= n * hi
  {
    assert n * (a - lo) >= 0 && n * (hi - a) >= 0;
    assert n * (a - lo) == a * n - n * lo && n * (hi - a) == n * hi - a * n;
  }

  lemma RangeStep(a: int, n: nat, r: int, b: int)
    requires Updates(a, n, r, b) && Stars(r) && (n > 0 ==> 100 <= a <= 500)
    ensures 100 <= b <= 500
  {
    if n > 0 {
      Scale(n, 100, a, 500);
    }
    NearestWithin(b, a * n + 100 * r, n + 1, 100, 500);
  }

  /**
    After n ratings with true sum S the stored average A, in hundredths, satisfies
    4 * |n * A - 100 * S| <= n * (n + 1), and lies between one and five stars.
  */
  lemma {:induction false} DriftBound(rs: seq<int>, averages: seq<int>)
    requires History(rs, averages)
    ensures 4 * Abs(|rs| * averages[|rs|] - 100 * Sum(rs)) <= |rs| * (|rs| + 1)
    ensures |rs| > 0 ==> 100 <= averages[|rs|] <= 500
    decreases |rs|
  {
    if rs != [] {
      var n := |rs| - 1;
      assert History(rs[..n], averages[..n + 1]);
      DriftBound(rs[..n], averages[..n + 1]);
      assert Updates(averages[n], n, rs[n], averages[n + 1]);
      DriftStep(averages[n], n, rs[n], averages[n + 1], Sum(rs[..n]));
      RangeStep(averages[n], n, rs[n], averages[n + 1]);
    }
  }

  // ---------------------------------------------------------------- the average freezes

  /** A rating surely leaves the stored average alone exactly when it is less than half of `n + 1`
      hundredths away from it. */
  lemma UnchangedIff(a: int, n: nat, r: int)
    ensures (forall b :: Updates(a, n, r, b) ==> b == a) <==> 2 * Abs(100 * r - a) < n + 1
  {
    var num := a * n + 100 * r;
    assert (n + 1) * a - num == a - 100 * r;
    if 2 * Abs(100 * r - a) < n + 1 {
      forall b | Updates(a, n, r, b) ensures b == a {
        if b > a {
          Apart(n + 1, a, b);
        } else if b < a {
          Apart(n + 1, b, a);
        }
      }
    } else {
      var b := NearestExists(num, n + 1, a);
      assert Updates(a, n, r, b) && b != a;
    }
  }

  /** Unless `a` itself is strictly nearest there is a nearest value other than `a`. */
  lemma NearestExists(n: int, d: nat, a: int) returns (b: int)
    requires d > 0 && 2 * Abs(d * a - n) >= d
    ensures IsNearest(b, n, d) && b != a
  {
    b := (2 * n + d) / (2 * d);
    var rem := (2 * n + d) % (2 * d);
    assert 2 * n + d == (2 * d) * b + rem;
    assert (2 * d) * b == 2 * (d * b);
    assert IsNearest(b, n, d);
    if b == a {
      // a tie: d * a - n is exactly half of d above, so the value below is as near
      assert d * (a - 1) == d * a - d;
      b := a - 1;
    }
  }

  /**
    Once a partner has 800 ratings the stored average never changes again, whatever the further
    ratings are.
  */
  lemma {:induction false} FrozenAverage(rs: seq<int>, averages: seq<int>, k: nat)
    requires History(rs, averages) && 800 <= k <= |rs|
    ensures averages[|rs|] == averages[k]
    decreases |rs|
  {
    if k < |rs| {
      var n := |rs| - 1;
      assert History(rs[..n], averages[..n + 1]);
      FrozenAverage(rs[..n], averages[..n + 1], k);
      DriftBound(rs[..n], averages[..n + 1]);
      assert Updates(averages[n], n, rs[n], averages[n + 1]);
      UnchangedIff(averages[n], n, rs[n]);
    }
  }

  lemma {:induction false} SumOfConstant(rs: seq<int>, from: nat, stars: int)
    requires from <= |rs| && forall i :: from <= i < |rs| ==> rs[i] == stars
    ensures Sum(rs) == Sum(rs[..from]) + stars * (|rs| - from)
    decreases |rs|
  {
    if from == |rs| {
      assert rs[..from] == rs;
    } else {
      var n := |rs| - 1;
      SumOfConstant(rs[..n], from, stars);
      assert rs[..n][..from] == rs[..from];
    }
  }

  /** So 800 one-star ratings are never forgiven: after any number of five-star ratings on top the
      stored average is still 1.00, although the true mean tends to five. */
  lemma OneStarForever(rs: seq<int>, averages: seq<int>)
    requires History(rs, averages) && |rs| >= 800
    requires forall i :: 0 <= i < |rs| ==> rs[i] == if i < 800 then 1 else 5
    ensures averages[|rs|] == 100
    ensures Sum(rs) == 800 + 5 * (|rs| - 800)
  {
    SumOfConstant(rs, 800, 5);
    SumOfConstant(rs[..800], 0, 1);
    assert rs[..800][..0] == [];
    AllOnes(rs[..800], averages[..801]);
    FrozenAverage(rs, averages, 800);
  }

  lemma {:induction false} AllOnes(rs: seq<int>, averages: seq<int>)
    requires History(rs, averages) && |rs| > 0 && forall i :: 0 <= i < |rs| ==> rs[i] == 1
    ensures averages[|rs|] == 100
    decreases |rs|
  {
    var n := |rs| - 1;
    if n > 0 {
      assert History(rs[..n], averages[..n + 1]);
      AllOnes(rs[..n], averages[..n + 1]);
    }
    assert Updates(averages[n], n, rs[n], averages[n + 1]);
    assert averages[n] * n == 100 * n;
    NearestWithin(averages[n + 1], averages[n] * n + 100, n + 1, 100, 100);
  }

  // ---------------------------------------------------------------- overlapping submissions

  /** A submission that has created its record and loaded the partner, but not saved it yet. */
  datatype Loaded = Loaded(rider: Rider, stars: int)

  datatype Board = Board(records: nat, rider: Rider, loaded: seq<Loaded>)

  /** `Save` carries the average the rounding produced. */
  datatype Move = Load(stars: int) | Save(i: nat, average: int)

  predicate Allowed(b: Board, m: Move) {
    match m
    case Load(stars) => Stars(stars)
    case Save(i, average) =>
      i < |b.loaded| && Updates(b.loaded[i].rider.average, b.loaded[i].rider.total, b.loaded[i].stars, average)
  }

  function Advance(b: Board, m: Move): Board
    requires Allowed(b, m)
  {
    match m
    case Load(stars) => b.(records := b.records + 1, loaded := b.loaded + [Loaded(b.rider, stars)])
    case Save(i, average) =>
      b.(rider := Rider(average, b.loaded[i].rider.total + 1), loaded := b.loaded[..i] + b.loaded[i + 1..])
  }

  /** The partner's count is behind the records by at least the submissions still under way. */
  predicate Bounded(b: Board) {
    && b.rider.total + |b.loaded| <= b.records
    && forall i :: 0 <= i < |b.loaded| ==> b.loaded[i].rider.total + |b.loaded| <= b.records
  }

  /** Every record whose submission has finished is counted. */
  predicate NoneLost(b: Board) {
    b.rider.total + |b.loaded| == b.records
  }

  ghost predicate Playable(b: Board, ms: seq<Move>)
    decreases |ms|
  {
    ms != [] ==> Allowed(b, ms[0]) && Playable(Advance(b, ms[0]), ms[1..])
  }

  ghost function Play(b: Board, ms: seq<Move>): Board
    requires Playable(b, ms)
    decreases |ms|
  {
    if ms == [] then b else Play(Advance(b, ms[0]), ms[1..])
  }

  /** However submissions overlap, the count never exceeds the number of finished records. */
  lemma {:induction false} CountNeverExceedsRecords(b: Board, ms: seq<Move>)
    requires Bounded(b) && Playable(b, ms)
    ensures Bounded(Play(b, ms))
    decreases |ms|
  {
    if ms != [] {
      CountNeverExceedsRecords(Advance(b, ms[0]), ms[1..]);
    }
  }

  /** Every save comes while the count is still what its submission loaded. */
  ghost predicate UpToDate(b: Board, ms: seq<Move>)
    requires Playable(b, ms)
    decreases |ms|
  {
    ms != [] ==>
      && (ms[0].Save? ==> b.loaded[ms[0].i].rider.total == b.rider.total)
      && UpToDate(Advance(b, ms[0]), ms[1..])
  }

  /** Some finished record is not counted, and no submission under way can make up for it. */
  predicate Lost(b: Board) {
    && b.rider.total + |b.loaded| < b.records
    && forall i :: 0 <= i < |b.loaded| ==> b.loaded[i].rider.total + |b.loaded| < b.records
  }

  lemma {:induction false} LostForGood(b: Board, ms: seq<Move>)
    requires Lost(b) && Playable(b, ms)
    ensures Lost(Play(b, ms))
    decreases |ms|
  {
    if ms != [] {
      LostForGood(Advance(b, ms[0]), ms[1..]);
    }
  }

  /** Along every run all finished records stay counted exactly when no save is out of date: a count
      that another submission's save has moved on is overwritten, and no later save restores it. */
  lemma {:induction false} SavesLoseNoneIff(b: Board, ms: seq<Move>)
    requires Bounded(b) && NoneLost(b) && Playable(b, ms)
    ensures NoneLost(Play(b, ms)) <==> UpToDate(b, ms)
    ensures !UpToDate(b, ms) ==> Lost(Play(b, ms))
    decreases |ms|
  {
    if ms != [] {
      var next := Advance(b, ms[0]);
      if ms[0].Save? && b.loaded[ms[0].i].rider.total != b.rider.total {
        LostForGood(next, ms[1..]);
      } else {
        SavesLoseNoneIff(next, ms[1..]);
      }
    }
  }

  lemma PlayOne(b: Board, m: Move, ms: seq<Move>, rest: seq<Move>)
    requires Allowed(b, m) && ms == [m] + rest && Playable(Advance(b, m), rest)
    ensures Playable(b, ms) && Play(b, ms) == Play(Advance(b, m), rest)
  {
    assert ms[0] == m && ms[1..] == rest;
  }

  /** Two submissions that overlap: two records, one counted, and only the second one averaged. */
  lemma OverlapLosesARating(b: Board, first: int, second: int, ms: seq<Move>)
    requires b == Board(0, Rider(0, 0), []) && Stars(first) && Stars(second)
    requires ms == [Load(first), Load(second), Save(0, 100 * first), Save(0, 100 * second)]
    ensures Playable(b, ms) && Play(b, ms) == Board(2, Rider(100 * second, 1), [])
  {
    var l := b.rider;
    var b1 := Advance(b, ms[0]);
    var b2 := Advance(b1, ms[1]);
    assert b2.loaded == [Loaded(l, first), Loaded(l, second)];
    var b3 := Advance(b2, ms[2]);
    assert b3.loaded == [Loaded(l, second)];
    var b4 := Advance(b3, ms[3]);
    assert b4.loaded == [];
    PlayOne(b3, ms[3], [ms[3]], []);
    PlayOne(b2, ms[2], ms[2..], [ms[3]]);
    PlayOne(b1, ms[1], ms[1..], ms[2..]);
    PlayOne(b, ms[0], ms, ms[1..]);
  }
}
