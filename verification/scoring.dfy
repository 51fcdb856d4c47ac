/** Scoring: the percentile of each row's return within its window's column
    (scipy's `percentileofscore` with its default `kind='rank'`), and the
    HQM score, the mean of a row's four window percentiles. */
module Scoring {
  import opened Types

  /** `count(a < score)`: how many values lie strictly below `x`. */
  function CountBelow(a: seq<real>, x: real): (c: nat)
    ensures c <= |a|
  {
    if |a| == 0 then 0 else (if a[0] < x then 1 else 0) + CountBelow(a[1..], x)
  }

  /** `count(a <= score)`: how many values lie at or below `x`. */
  function CountAtMost(a: seq<real>, x: real): (c: nat)
    ensures CountBelow(a, x) <= c <= |a|
  {
    if |a| == 0 then 0 else (if a[0] <= x then 1 else 0) + CountAtMost(a[1..], x)
  }

  /** The numerator of scipy's `kind='rank'` formula, in half-ranks:
      `left + right + plus1`, where `plus1` adds one half-rank when the score
      occurs in `a` at all. For a score that occurs in `a`, this is twice
      the mean 1-based rank of its ties (`TiesMeanRank`). */
  function HalfRanks(a: seq<real>, score: real): (k: nat)
    ensures k <= 2 * CountAtMost(a, score)
    ensures k <= 2 * |a|
  {
    var left := CountBelow(a, score);
    var right := CountAtMost(a, score);
    var plus1 := if left < right then 1 else 0;
    left + right + plus1
  }

  /** `percentileofscore(a, score)` with its default `kind='rank'`:
      `(left + right + plus1) * (50 / n)`. */
  function Percentile(a: seq<real>, score: real): (p: real)
    requires |a| > 0
    ensures 0.0 <= p <= 100.0
  {
    ScaleBounds(HalfRanks(a, score), |a|);
    Scale(HalfRanks(a, score), |a|)
  }

  /** `k` half-ranks out of `n` values, as a percentage: `k * (50 / n)`. */
  function Scale(k: nat, n: nat): real
    requires n > 0
  {
    k as real * (50.0 / n as real)
  }

  /** A count of half-ranks out of `2n` scales into [0, 100], and to 100
      exactly at `2n`. */
  lemma ScaleBounds(k: nat, n: nat)
    requires n > 0
    requires k <= 2 * n
    ensures 0.0 <= Scale(k, n) <= 100.0
    ensures Scale(2 * n, n) == 100.0
  {
    var f := 50.0 / n as real;
    assert f > 0.0;
    assert k as real * f <= (2 * n) as real * f;
    assert (2 * n) as real * f == 100.0;
  }

  /** Scaling half-rank counts keeps their order and tells them apart. */
  lemma ScaleCompare(k1: nat, k2: nat, n: nat)
    requires n > 0
    ensures k1 <= k2 ==> Scale(k1, n) <= Scale(k2, n)
    ensures Scale(k1, n) == Scale(k2, n) <==> k1 == k2
  {
    var f := 50.0 / n as real;
    assert f > 0.0;
    assert k2 as real * f - k1 as real * f == (k2 - k1) as real * f;
  }

  /** The percentage of values at or below the score: the "percentile of
      score" in its plain textbook sense (scipy's `kind='weak'`). */
  function WeakPercentile(a: seq<real>, score: real): (p: real)
    requires |a| > 0
    ensures 0.0 <= p <= 100.0
  {
    ScaleBounds(2 * CountAtMost(a, score), |a|);
    Scale(2 * CountAtMost(a, score), |a|)
  }

  // ---------------------------------------------------------------------
  // Counting facts

  lemma {:induction false} CountAppend(a: seq<real>, b: seq<real>, x: real)
    ensures CountBelow(a + b, x) == CountBelow(a, x) + CountBelow(b, x)
    ensures CountAtMost(a + b, x) == CountAtMost(a, x) + CountAtMost(b, x)
    decreases |a|
  {
    if |a| == 0 {
      assert a + b == b;
    } else {
      assert (a + b)[0] == a[0];
      assert (a + b)[1..] == a[1..] + b;
      CountAppend(a[1..], b, x);
    }
  }

  /** The values equal to `x` are exactly the ones counted by `<=` and not
      by `<`. */
  lemma {:induction false} CountTies(a: seq<real>, x: real)
    ensures CountAtMost(a, x) - CountBelow(a, x) == multiset(a)[x]
    decreases |a|
  {
    if |a| > 0 {
      CountTies(a[1..], x);
      assert a == [a[0]] + a[1..];
      assert multiset(a) == multiset{a[0]} + multiset(a[1..]);
    }
  }

  /** The sum of the 1-based ranks `below + 1` .. `below + m`: the ranks
      that `m` tied values take after `below` smaller ones. */
  function RankSum(below: nat, m: nat): nat {
    if m == 0 then 0 else RankSum(below, m - 1) + below + m
  }

  lemma {:induction false} RankSumClosed(below: nat, m: nat)
    ensures 2 * RankSum(below, m) == m * (2 * below + m + 1)
    decreases m
  {
    if m > 0 {
      RankSumClosed(below, m - 1);
      assert (m - 1) * (2 * below + m) + 2 * below + 2 * m == m * (2 * below + m + 1);
    }
  }

  /** scipy's half-rank count is twice the mean rank of the score's ties
      when the score occurs (`m` copies, mean rank `RankSum / m`), and twice
      the number of smaller values when it does not. */
  lemma TiesMeanRank(a: seq<real>, x: real)
    ensures multiset(a)[x] > 0 ==>
              multiset(a)[x] * HalfRanks(a, x) == 2 * RankSum(CountBelow(a, x), multiset(a)[x])
    ensures multiset(a)[x] == 0 ==> HalfRanks(a, x) == 2 * CountBelow(a, x)
  {
    CountTies(a, x);
    var m := multiset(a)[x];
    var left := CountBelow(a, x);
    var h := HalfRanks(a, x);
    if m > 0 {
      assert h == 2 * left + m + 1;
      MeanRank(left, m, h);
    }
  }

  /** `m` ties after `left` smaller values: `m` times the half-rank count
      `2 * left + m + 1` is twice the sum of their ranks. */
  lemma MeanRank(left: nat, m: nat, h: nat)
    requires h == 2 * left + m + 1
    ensures m * h == 2 * RankSum(left, m)
  {
    RankSumClosed(left, m);
  }

  lemma {:induction false} CountBelowAll(a: seq<real>, x: real)
    ensures CountBelow(a, x) == |a| <==> forall j :: 0 <= j < |a| ==> a[j] < x
    decreases |a|
  {
    if |a| > 0 {
      CountBelowAll(a[1..], x);
      assert forall j :: 1 <= j < |a| ==> a[j] == a[1..][j - 1];
    }
  }

  lemma {:induction false} CountMonotone(a: seq<real>, x: real, y: real)
    requires x <= y
    ensures CountBelow(a, x) <= CountBelow(a, y)
    ensures CountAtMost(a, x) <= CountAtMost(a, y)
    ensures x < y ==> CountAtMost(a, x) <= CountBelow(a, y)
    decreases |a|
  {
    if |a| > 0 {
      CountMonotone(a[1..], x, y);
    }
  }

  // ---------------------------------------------------------------------
  // Percentile properties

  /** A higher return never gets a lower percentile. */
  lemma PercentileMonotone(a: seq<real>, x: real, y: real)
    requires |a| > 0
    requires x <= y
    ensures Percentile(a, x) <= Percentile(a, y)
  {
    CountMonotone(a, x, y);
    var kx, ky := HalfRanks(a, x), HalfRanks(a, y);
    if x < y {
      assert kx <= 2 * CountAtMost(a, x) <= 2 * CountBelow(a, y) <= ky;
    }
    ScaleCompare(kx, ky, |a|);
  }

  /** A value of the column is counted by `<=` but not by `<`; it is the
      only such value exactly when every other value is strictly below it. */
  lemma CountAtMember(a: seq<real>, i: nat)
    requires i < |a|
    ensures CountBelow(a, a[i]) < CountAtMost(a, a[i])
    ensures CountBelow(a, a[i]) == |a| - 1 <==> forall j :: 0 <= j < |a| && j != i ==> a[j] < a[i]
  {
    var x := a[i];
    var pre, post := a[..i], a[i + 1..];
    assert a == pre + ([x] + post);
    CountAppend(pre, [x] + post, x);
    CountAppend([x], post, x);
    assert CountBelow([x], x) == 0 && CountAtMost([x], x) == 1;
    CountBelowAll(pre, x);
    CountBelowAll(post, x);
    if forall j :: 0 <= j < |a| && j != i ==> a[j] < x {
      OthersBelow(a, i, pre, post);
    }
    if CountBelow(a, x) == |a| - 1 {
      OthersBelowBack(a, i, pre, post);
    }
  }

  lemma OthersBelow(a: seq<real>, i: nat, pre: seq<real>, post: seq<real>)
    requires i < |a| && pre == a[..i] && post == a[i + 1..]
    requires forall j :: 0 <= j < |a| && j != i ==> a[j] < a[i]
    ensures forall j :: 0 <= j < |pre| ==> pre[j] < a[i]
    ensures forall j :: 0 <= j < |post| ==> post[j] < a[i]
  {
    assert forall j :: 0 <= j < |pre| ==> pre[j] == a[j];
    assert forall j :: 0 <= j < |post| ==> post[j] == a[i + 1 + j];
  }

  lemma OthersBelowBack(a: seq<real>, i: nat, pre: seq<real>, post: seq<real>)
    requires i < |a| && pre == a[..i] && post == a[i + 1..]
    requires forall j :: 0 <= j < |pre| ==> pre[j] < a[i]
    requires forall j :: 0 <= j < |post| ==> post[j] < a[i]
    ensures forall j :: 0 <= j < |a| && j != i ==> a[j] < a[i]
  {
    forall j | 0 <= j < |a| && j != i
      ensures a[j] < a[i]
    {
      if j < i {
        assert a[j] == pre[j];
      } else {
        assert a[j] == post[j - i - 1];
      }
    }
  }

  /** A value of the column gets percentile 100 exactly when it is strictly
      greater than every other value. The maximum shared with a tie gets
      less. */
  lemma PercentileTopIff(a: seq<real>, i: nat)
    requires i < |a|
    ensures Percentile(a, a[i]) == 100.0 <==> forall j :: 0 <= j < |a| && j != i ==> a[j] < a[i]
  {
    CountAtMember(a, i);
    var k := HalfRanks(a, a[i]);
    ScaleCompare(k, 2 * |a|, |a|);
    ScaleBounds(k, |a|);
  }

  /** A one-instrument universe gives that instrument percentile 100. */
  lemma PercentileSingleton(a: seq<real>)
    requires |a| == 1
    ensures Percentile(a, a[0]) == 100.0
  {
    PercentileTopIff(a, 0);
  }

  /** The code's percentile never exceeds the plain "percentage at or
      below", and the two agree exactly when the score occurs at most once
      in the column: ties are counted half. */
  lemma PercentileVersusWeak(a: seq<real>, x: real)
    requires |a| > 0
    ensures Percentile(a, x) <= WeakPercentile(a, x)
    ensures Percentile(a, x) == WeakPercentile(a, x) <==> multiset(a)[x] <= 1
  {
    CountTies(a, x);
    var k := HalfRanks(a, x);
    assert k == 2 * CountAtMost(a, x) <==> CountAtMost(a, x) - CountBelow(a, x) <= 1;
    ScaleCompare(k, 2 * CountAtMost(a, x), |a|);
  }

  /** The three-instrument scenario: 1-year returns 0.10, 0.30, 0.20 get
      percentiles 100/3, 100 and 200/3. */
  lemma ThreeInstrumentScenario()
    ensures Percentile([0.10, 0.30, 0.20], 0.10) == 100.0 / 3.0
    ensures Percentile([0.10, 0.30, 0.20], 0.30) == 100.0
    ensures Percentile([0.10, 0.30, 0.20], 0.20) == 200.0 / 3.0
  {
    var a := [0.10, 0.30, 0.20];
    assert a[1..] == [0.30, 0.20] && a[1..][1..] == [0.20] && a[1..][1..][1..] == [];
  }

  // ---------------------------------------------------------------------
  // Scoring the table

  /** The return column of window `w`. */
  function Column(rows: seq<Stock>, w: Window): (col: seq<real>)
    ensures |col| == |rows|
    ensures forall i :: 0 <= i < |rows| ==> col[i] == rows[i].change.At(w)
  {
    seq(|rows|, i requires 0 <= i < |rows| => rows[i].change.At(w))
  }

  /** Row `i`'s percentile in window `w`, ranked against the whole table. */
  function WindowPercentile(rows: seq<Stock>, i: nat, w: Window): real
    requires i < |rows|
  {
    Percentile(Column(rows, w), rows[i].change.At(w))
  }

  function Sum(xs: seq<real>): real {
    if |xs| == 0 then 0.0 else xs[0] + Sum(xs[1..])
  }

  /** `statistics.mean`, exact on rationals. */
  function Mean(xs: seq<real>): (m: real)
    requires |xs| > 0
    ensures m * |xs| as real == Sum(xs)
  {
    Sum(xs) / |xs| as real
  }

  /** The arithmetic mean of the four window percentiles. */
  function Composite(p: Windowed<real>): real {
    (p.oneYear + p.sixMonth + p.threeMonth + p.oneMonth) / 4.0
  }

  /** Row `i` with its four percentiles against the whole table and its HQM
      score. */
  function ScoreRow(rows: seq<Stock>, i: nat): (r: Scored)
    requires i < |rows|
    ensures r.stock == rows[i]
    ensures forall w :: r.percentile.At(w) == WindowPercentile(rows, i, w)
    ensures r.hqm == Composite(r.percentile)
    ensures 0.0 <= r.hqm <= 100.0
  {
    var p := Windowed(
      WindowPercentile(rows, i, OneYear), WindowPercentile(rows, i, SixMonth),
      WindowPercentile(rows, i, ThreeMonth), WindowPercentile(rows, i, OneMonth));
    Scored(rows[i], p, Composite(p))
  }

  /** Every row scored against the same, complete table. */
  function Score(rows: seq<Stock>): (scored: seq<Scored>)
    ensures |scored| == |rows|
    ensures forall i :: 0 <= i < |rows| ==> scored[i].stock == rows[i]
    ensures forall i, w :: 0 <= i < |rows| ==> scored[i].percentile.At(w) == WindowPercentile(rows, i, w)
    ensures forall i :: 0 <= i < |rows| ==> scored[i].hqm == Composite(scored[i].percentile)
    ensures forall i :: 0 <= i < |rows| ==> 0.0 <= scored[i].hqm <= 100.0
  {
    seq(|rows|, i requires 0 <= i < |rows| => ScoreRow(rows, i))
  }

  lemma MeanOfFour(xs: seq<real>)
    requires |xs| == 4
    ensures Mean(xs) == (xs[0] + xs[1] + xs[2] + xs[3]) / 4.0
  {
    assert Sum(xs[3..]) == xs[3] by {
      assert xs[3..][1..] == [];
    }
    assert Sum(xs[2..]) == xs[2] + Sum(xs[3..]) by {
      assert xs[2..][1..] == xs[3..];
    }
    assert Sum(xs[1..]) == xs[1] + Sum(xs[2..]) by {
      assert xs[1..][1..] == xs[2..];
    }
  }

  /** The window loop for one row: the four windows in order; after each
      window the row's HQM score is reset to the mean of the percentiles
      computed so far, so only its value after the last window survives.
      Percentiles start as placeholders (0) that the loop overwrites. */
  method ScoreRowLoop(rows: seq<Stock>, row: nat) returns (scored: Scored)
    requires row < |rows|
    ensures scored.stock == rows[row]
    ensures forall w :: scored.percentile.At(w) == WindowPercentile(rows, row, w)
    ensures scored.hqm == Composite(scored.percentile)
  {
    var percentiles := Windowed(0.0, 0.0, 0.0, 0.0);
    var momentum: seq<real> := [];
    var hqm := 0.0;
    var k := 0;
    while k < |Windows|
      invariant 0 <= k <= |Windows|
      invariant |momentum| == k
      invariant forall j :: 0 <= j < k ==> momentum[j] == WindowPercentile(rows, row, Windows[j])
      invariant forall j :: 0 <= j < k ==> percentiles.At(Windows[j]) == momentum[j]
      invariant k > 0 ==> hqm == Mean(momentum)
    {
      var w := Windows[k];
      var p := Percentile(Column(rows, w), rows[row].change.At(w));
      percentiles := percentiles.With(w, p);
      momentum := momentum + [p];
      hqm := Mean(momentum);
      k := k + 1;
    }
    MeanOfFour(momentum);
    assert percentiles.oneYear == momentum[0] by { assert Windows[0] == OneYear; }
    assert percentiles.sixMonth == momentum[1] by { assert Windows[1] == SixMonth; }
    assert percentiles.threeMonth == momentum[2] by { assert Windows[2] == ThreeMonth; }
    assert percentiles.oneMonth == momentum[3] by { assert Windows[3] == OneMonth; }
    forall w ensures percentiles.At(w) == WindowPercentile(rows, row, w) {
      match w
      case OneYear => assert Windows[0] == w;
      case SixMonth => assert Windows[1] == w;
      case ThreeMonth => assert Windows[2] == w;
      case OneMonth => assert Windows[3] == w;
    }
    scored := Scored(rows[row], percentiles, hqm);
  }

  /** The row loop of the scoring step: every row scored in turn against the
      same, complete table. */
  method ScoreTable(rows: seq<Stock>) returns (out: seq<Scored>)
    ensures out == Score(rows)
  {
    out := [];
    var row := 0;
    while row < |rows|
      invariant 0 <= row <= |rows|
      invariant out == Score(rows)[..row]
    {
      var scored := ScoreRowLoop(rows, row);
      assert scored == ScoreRow(rows, row);
      out := out + [scored];
      row := row + 1;
    }
  }

  /** Each window's percentile is monotone in the row's return. */
  lemma WindowPercentileMonotone(rows: seq<Stock>, a: nat, b: nat, w: Window)
    requires a < |rows| && b < |rows|
    requires rows[a].change.At(w) <= rows[b].change.At(w)
    ensures WindowPercentile(rows, a, w) <= WindowPercentile(rows, b, w)
  {
    PercentileMonotone(Column(rows, w), rows[a].change.At(w), rows[b].change.At(w));
  }

  /** A row whose returns are at least another's in every window scores at
      least as high. */
  lemma ScoreDominance(rows: seq<Stock>, a: nat, b: nat)
    requires a < |rows| && b < |rows|
    requires forall w :: rows[a].change.At(w) <= rows[b].change.At(w)
    ensures Score(rows)[a].hqm <= Score(rows)[b].hqm
  {
    forall w ensures WindowPercentile(rows, a, w) <= WindowPercentile(rows, b, w) {
      WindowPercentileMonotone(rows, a, b, w);
    }
    assert ScoreRow(rows, a).percentile.At(OneYear) <= ScoreRow(rows, b).percentile.At(OneYear);
    assert ScoreRow(rows, a).percentile.At(SixMonth) <= ScoreRow(rows, b).percentile.At(SixMonth);
    assert ScoreRow(rows, a).percentile.At(ThreeMonth) <= ScoreRow(rows, b).percentile.At(ThreeMonth);
    assert ScoreRow(rows, a).percentile.At(OneMonth) <= ScoreRow(rows, b).percentile.At(OneMonth);
  }

  /** In a one-instrument universe every percentile, and so the HQM score,
      is 100. */
  lemma SingleInstrumentScore(s: Stock)
    ensures forall w :: Score([s])[0].percentile.At(w) == 100.0
    ensures Score([s])[0].hqm == 100.0
  {
    forall w ensures WindowPercentile([s], 0, w) == 100.0 {
      PercentileSingleton(Column([s], w));
    }
  }
}
