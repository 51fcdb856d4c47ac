/** Position sizing: the budget is split evenly across the selected rows and
    each row buys the whole number of shares its slice affords. */
module Sizing {
  import opened Types

  /** The total budget of the reference configuration. */
  const PortfolioSize: real := 1000000.0

  /** `PORTFOLIO_SIZE / len(final_dataframe.index)`. */
  function PositionSize(budget: real, count: nat): (size: real)
    requires count > 0
    ensures size * count as real == budget
    ensures budget >= 0.0 ==> size >= 0.0
  {
    budget / count as real
  }

  /** `math.floor(position_size / price)`. For a positive price it is the
      largest whole number of shares that fits the position size. */
  function Shares(positionSize: real, price: real): (n: int)
    requires price != 0.0
    ensures price > 0.0 ==> n as real * price <= positionSize < (n + 1) as real * price
    ensures price > 0.0 && positionSize >= 0.0 ==> n >= 0
  {
    FloorScaleWhenPositive(positionSize, price);
    (positionSize / price).Floor
  }

  /** Rounding `size / price` down, for a positive price, gives the
      largest multiple of `price` at or below `size`. */
  lemma FloorScale(size: real, price: real)
    requires price > 0.0
    ensures (size / price).Floor as real * price <= size
    ensures size < ((size / price).Floor + 1) as real * price
  {
    var q := size / price;
    var lo := q.Floor as real;
    var hi := (q.Floor + 1) as real;
    assert q * price == size;
    assert lo * price <= q * price by {
      assert (q - lo) * price >= 0.0;
    }
    assert q * price < hi * price by {
      assert (hi - q) * price > 0.0;
    }
    assert size < hi * price;
    assert hi == ((size / price).Floor + 1) as real;
  }

  lemma FloorScaleWhenPositive(size: real, price: real)
    requires price != 0.0
    ensures price > 0.0 ==> (size / price).Floor as real * price <= size < ((size / price).Floor + 1) as real * price
  {
    if price > 0.0 {
      FloorScale(size, price);
    }
  }

  /** The first selected row, in order, whose price is 0. */
  function FirstZeroPrice(rows: seq<Scored>): (r: Option<nat>)
    ensures r.None? <==> forall i :: 0 <= i < |rows| ==> rows[i].stock.price != 0.0
    ensures r.Some? ==> r.value < |rows| && rows[r.value].stock.price == 0.0
    ensures r.Some? ==> forall i :: 0 <= i < r.value ==> rows[i].stock.price != 0.0
  {
    if |rows| == 0 then None
    else if rows[0].stock.price == 0.0 then Some(0)
    else
      match FirstZeroPrice(rows[1..])
      case None =>
        assert forall i :: 1 <= i < |rows| ==> rows[i] == rows[1..][i - 1];
        None
      case Some(j) =>
        assert forall i :: 1 <= i <= j ==> rows[i] == rows[1..][i - 1];
        Some(j + 1)
  }

  /** Position sizing: divide the budget by the number of selected rows,
      then give each row `floor(position_size / price)` shares. An empty
      selection divides by zero before any row is sized; the first row with
      price 0 divides by zero in the sizing loop. */
  function SizePositions(budget: real, rows: seq<Scored>): (r: Result<seq<Trade>>)
    ensures |rows| == 0 ==> r == Err(EmptySelection)
    ensures r.Ok? <==> |rows| > 0 && forall i :: 0 <= i < |rows| ==> rows[i].stock.price != 0.0
    ensures r.Err? && |rows| > 0 ==>
              FirstZeroPrice(rows).Some? && r.error == ZeroPrice(rows[FirstZeroPrice(rows).value].stock.ticker)
    ensures r.Ok? ==> |r.value| == |rows|
    ensures r.Ok? ==> forall i :: 0 <= i < |rows| ==> r.value[i].row == rows[i]
    ensures r.Ok? ==> forall i :: 0 <= i < |rows| && rows[i].stock.price > 0.0 ==>
              r.value[i].shares as real * rows[i].stock.price <= PositionSize(budget, |rows|)
    ensures r.Ok? ==> forall i :: 0 <= i < |rows| && rows[i].stock.price > 0.0 ==>
              PositionSize(budget, |rows|) < (r.value[i].shares + 1) as real * rows[i].stock.price
    ensures r.Ok? && budget >= 0.0 ==> forall i :: 0 <= i < |rows| && rows[i].stock.price > 0.0 ==>
              r.value[i].shares >= 0
  {
    if |rows| == 0 then Err(EmptySelection)
    else
      var size := PositionSize(budget, |rows|);
      match FirstZeroPrice(rows)
      case Some(i) => Err(ZeroPrice(rows[i].stock.ticker))
      case None => Ok(SizeAll(size, rows))
  }

  /** The sizing loop once every price is known to be non-zero: each row, in
      order, buys the floor of `size / price` shares, which for a positive
      price is the most shares whose cost fits `size`. */
  function SizeAll(size: real, rows: seq<Scored>): (trades: seq<Trade>)
    requires forall i :: 0 <= i < |rows| ==> rows[i].stock.price != 0.0
    ensures |trades| == |rows|
    ensures forall i :: 0 <= i < |rows| ==> trades[i].row == rows[i]
    ensures forall i :: 0 <= i < |rows| && rows[i].stock.price > 0.0 ==>
              trades[i].shares as real * rows[i].stock.price <= size < (trades[i].shares + 1) as real * rows[i].stock.price
    ensures size >= 0.0 ==> forall i :: 0 <= i < |rows| && rows[i].stock.price > 0.0 ==> trades[i].shares >= 0
  {
    seq(|rows|, i requires 0 <= i < |rows| => Trade(rows[i], Shares(size, rows[i].stock.price)))
  }

  /** The scored rows the trades were sized for, in order. */
  function Rows(trades: seq<Trade>): (rows: seq<Scored>)
    ensures |rows| == |trades|
    ensures forall i :: 0 <= i < |trades| ==> rows[i] == trades[i].row
  {
    seq(|trades|, i requires 0 <= i < |trades| => trades[i].row)
  }

  /** The money a set of trades spends: the sum of shares times price. */
  function Spent(trades: seq<Trade>): real {
    if |trades| == 0 then 0.0
    else trades[0].shares as real * trades[0].row.stock.price + Spent(trades[1..])
  }

  /** If every trade spends at most `cap`, all of them spend at most
      `|trades| * cap`. */
  lemma {:induction false} SpentBound(trades: seq<Trade>, cap: real)
    requires forall i :: 0 <= i < |trades| ==> trades[i].shares as real * trades[i].row.stock.price <= cap
    ensures Spent(trades) <= |trades| as real * cap
    decreases |trades|
  {
    if |trades| > 0 {
      assert forall i :: 1 <= i < |trades| ==> trades[i] == trades[1..][i - 1];
      SpentBound(trades[1..], cap);
    }
  }

  /** Rounding share counts down never overspends: with positive prices the
      sized selection spends at most the budget. */
  lemma NoOverspend(budget: real, rows: seq<Scored>)
    requires |rows| > 0
    requires forall i :: 0 <= i < |rows| ==> rows[i].stock.price > 0.0
    ensures SizePositions(budget, rows).Ok?
    ensures Spent(SizePositions(budget, rows).value) <= budget
  {
    var trades := SizePositions(budget, rows).value;
    var cap := PositionSize(budget, |rows|);
    SpentBound(trades, cap);
  }

  /** Fifty rows at a uniform price of 100 with the reference budget: each
      slice is 20,000 and buys 200 shares. */
  lemma UniformPriceScenario(rows: seq<Scored>)
    requires |rows| == 50
    requires forall i :: 0 <= i < |rows| ==> rows[i].stock.price == 100.0
    ensures PositionSize(PortfolioSize, |rows|) == 20000.0
    ensures SizePositions(PortfolioSize, rows).Ok?
    ensures forall i :: 0 <= i < |rows| ==> SizePositions(PortfolioSize, rows).value[i].shares == 200
  {
    var trades := SizePositions(PortfolioSize, rows).value;
    forall i | 0 <= i < |rows| ensures trades[i].shares == 200 {
      assert trades[i].shares == Shares(20000.0, 100.0);
      assert (20000.0 / 100.0).Floor == 200;
    }
  }
}
